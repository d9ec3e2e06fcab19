/** The whole service as one state machine: one request, one atomic step (app/router.py). */
module System {
  import opened Basics
  import opened Contexts
  import opened Crypto
  import Envelope
  import Validation
  import VaultModel
  import KeyringModel
  import SecretsModel
  import LockoutModel
  import AuditModel

  datatype State = State(
    core: VaultModel.Core,
    ring: KeyringModel.Keyring,
    signed: set<Signature>,
    secrets: SecretsModel.Secrets,
    accounts: LockoutModel.Accounts,
    audit: seq<AuditModel.Row>)

  function Start(): State {
    State(VaultModel.Core(None, false), map[], {}, map[], map[], [])
  }

  /** Random draws (salts, keys, nonces, seeds, tokens) and the clock are part of a request. */
  datatype VaultCall =
    | Init(passphrase: string, confirmation: string, salt: Bytes, dek: Bytes, nonce: Nonce)
    | Unlock(passphrase: string)
    | Lock
    | Restart

  datatype KvCall =
    | KvWrite(path: string, data: Bytes, nonce: Nonce)
    | KvRead(path: string, version: Option<int>)
    | KvVersions(path: string)
    | KvDelete(path: string)
    | KvList

  datatype KeyCall =
    | CreateAes(name: string, material: Bytes, nonce: Nonce)
    | CreateSigning(name: string, seed: Bytes, nonce: Nonce)
    | ListKeys
    | GetKey(name: string)
    | Rotate(name: string, material: Bytes, nonce: Nonce)
    | Revoke(name: string)
    | Encrypt(name: string, plaintext64: string, nonce: Nonce)
    | Decrypt(envelope: string)
    | Sign(name: string, message64: string, isDigest: bool)
    | Verify(name: string, message64: string, isDigest: bool, signature64: string, algorithm: Option<string>)

  datatype Call = Kv(kv: KvCall) | Keys(key: KeyCall) | VerifyAudit

  datatype Request =
    | Vault(call: VaultCall)
    | Register(email: string, password: string, confirmation: string)
    | Login(email: string, password: string, now: Time, token: string)
    | As(email: string, clientIp: string, use: Call, now: Time)

  /** The request schema only lets well-formed addresses through. */
  predicate Admissible(request: Request) {
    request.As? ==> Validation.ValidEmail(request.email)
  }

  /** The nonce a request draws, if it may seal something. */
  function NonceOf(request: Request): Option<Nonce> {
    match request
    case Vault(Init(_, _, _, _, nonce)) => Some(nonce)
    case As(_, _, use, _) => UseNonce(use)
    case _ => None
  }

  function UseNonce(use: Call): Option<Nonce> {
    match use
    case Kv(KvWrite(_, _, nonce)) => Some(nonce)
    case Keys(CreateAes(_, _, nonce)) => Some(nonce)
    case Keys(CreateSigning(_, _, nonce)) => Some(nonce)
    case Keys(Rotate(_, _, nonce)) => Some(nonce)
    case Keys(Encrypt(_, _, nonce)) => Some(nonce)
    case _ => None
  }

  datatype Response =
    | Failed(error: Error)
    | Done
    | Text(text: string)
    | KeyInfo(info: KeyringModel.Metadata)
    | KeySet(infos: set<KeyringModel.Metadata>)
    | Validity(valid: bool)
    | Written(receipt: SecretsModel.Receipt)
    | Found(reading: SecretsModel.Reading)
    | History(versions: seq<SecretsModel.VersionInfo>)
    | Listing(receipts: seq<SecretsModel.Receipt>)
    | Verdict(verdict: AuditModel.Verdict)

  function Reply<T>(r: Result<T>, f: T -> Response): Response {
    match r
    case Ok(v) => f(v)
    case Err(e) => Failed(e)
  }

  function VaultStep(suite: Suite, core: VaultModel.Core, call: VaultCall): (VaultModel.Core, Response) {
    match call
    case Init(passphrase, confirmation, salt, dek, _) =>
      var (core', r) := VaultModel.Init(suite, core, passphrase, confirmation, salt, dek);
      (core', Reply(r, _ => Done))
    case Unlock(passphrase) =>
      var (core', r) := VaultModel.Unlock(suite, core, passphrase);
      (core', Reply(r, _ => Done))
    case Lock => (VaultModel.Lock(core), Done)
    case Restart => (VaultModel.Lock(core), Done)
  }

  ghost function KvStep(unlocked: bool, secrets: SecretsModel.Secrets, email: string, call: KvCall,
    now: Time): (SecretsModel.Secrets, Response)
  {
    match call
    case KvWrite(path, data, _) =>
      var (secrets', r) := SecretsModel.Write(unlocked, secrets, path, email, data, now);
      (secrets', Reply(r, x => Written(x)))
    case KvRead(path, version) =>
      (secrets, Reply(SecretsModel.Read(unlocked, secrets, path, email, version), x => Found(x)))
    case KvVersions(path) => (secrets, Reply(SecretsModel.Versions(unlocked, secrets, path, email), x => History(x)))
    case KvDelete(path) =>
      var (secrets', r) := SecretsModel.Delete(unlocked, secrets, path, email);
      (secrets', Reply(r, _ => Done))
    case KvList => (secrets, Reply(SecretsModel.List(unlocked, secrets, email), x => Listing(x)))
  }

  function KeyStep(suite: Suite, unlocked: bool, ring: KeyringModel.Keyring, signed: set<Signature>, email: string,
    call: KeyCall, now: Time)
    : (KeyringModel.Keyring, set<Signature>, Response)
  {
    match call
    case CreateAes(name, material, _) =>
      var (ring', r) := KeyringModel.Create(unlocked, ring, KeyId(email, name), KeyringModel.NewAesKey(material, now));
      (ring', signed, Reply(r, x => KeyInfo(x)))
    case CreateSigning(name, seed, _) =>
      var (ring', r) := KeyringModel.Create(unlocked, ring, KeyId(email, name), KeyringModel.NewSigningKey(seed, now));
      (ring', signed, Reply(r, x => KeyInfo(x)))
    case ListKeys => (ring, signed, Reply(KeyringModel.List(unlocked, ring, email), x => KeySet(x)))
    case GetKey(name) => (ring, signed, Reply(KeyringModel.Get(unlocked, ring, KeyId(email, name)), x => KeyInfo(x)))
    case Rotate(name, material, _) =>
      var (ring', r) := KeyringModel.Rotate(unlocked, ring, KeyId(email, name), material);
      (ring', signed, Reply(r, x => KeyInfo(x)))
    case Revoke(name) =>
      var (ring', r) := KeyringModel.Revoke(unlocked, ring, KeyId(email, name));
      (ring', signed, Reply(r, _ => Done))
    case Encrypt(name, plaintext64, nonce) =>
      var (ring', r) := KeyringModel.Encrypt(suite, unlocked, ring, KeyId(email, name), plaintext64, nonce);
      (ring', signed, Reply(r, x => Text(x)))
    case Decrypt(envelope) => (ring, signed, Reply(KeyringModel.Decrypt(unlocked, ring, email, envelope), x => Text(x)))
    case Sign(name, message64, isDigest) =>
      var (signed', r) := KeyringModel.Sign(suite, unlocked, ring, signed, KeyId(email, name), message64, isDigest);
      (ring, signed', Reply(r, x => Text(x)))
    case Verify(name, message64, isDigest, signature64, algorithm) =>
      (ring, signed, Reply(KeyringModel.Verify(suite, unlocked, ring, signed, KeyId(email, name), message64, isDigest,
        signature64, algorithm),
                           x => Validity(x)))
  }

  datatype Hook = Hook(action: string, resourceType: string, identifier: string)

  /** What a handler writes to the audit log when its call is denied; creating and listing have no hook. */
  function HookOf(use: Call): Option<Hook> {
    match use
    case VerifyAudit => None
    case Kv(call) =>
      (match call
       case KvWrite(path, _, _) => Some(Hook("WRITE", "KV_SECRET", path))
       case KvRead(path, _) => Some(Hook("READ", "KV_SECRET", path))
       case KvVersions(path) => Some(Hook("LIST_VERSIONS", "KV_SECRET", path))
       case KvDelete(path) => Some(Hook("DELETE", "KV_SECRET", path))
       case KvList => None)
    case Keys(call) =>
      (match call
       case GetKey(name) => Some(Hook("GET", "TRANSIT_KEY", name))
       case Rotate(name, _, _) => Some(Hook("ROTATE", "TRANSIT_KEY", name))
       case Revoke(name) => Some(Hook("REVOKE", "TRANSIT_KEY", name))
       case Encrypt(name, _, _) => Some(Hook("ENCRYPT", "TRANSIT_KEY", name))
       case Decrypt(envelope) => Some(Hook("DECRYPT", "TRANSIT_KEY", Envelope.AuditName(envelope)))
       case Sign(name, _, _) => Some(Hook("SIGN", "TRANSIT_KEY", name))
       case Verify(name, _, _, _, _) => Some(Hook("VERIFY", "TRANSIT_KEY", name))
       case CreateAes(_, _, _) => None
       case CreateSigning(_, _, _) => None
       case ListKeys => None)
  }

  /** `denied_audit`: one row per denied call. */
  function Audited(suite: Suite, audit: seq<AuditModel.Row>, email: string, clientIp: string, use: Call,
    response: Response)
    : seq<AuditModel.Row>
  {
    if response == Failed(PermissionDenied) && HookOf(use).Some? then
      var hook := HookOf(use).value;
      AuditModel.Append(suite, audit, email, hook.action, hook.resourceType, hook.identifier, "DENIED", clientIp)
    else audit
  }

  ghost function UseStep(suite: Suite, s: State, email: string, use: Call, now: Time): (State, Response) {
    match use
    case Kv(call) =>
      var (secrets', response) := KvStep(s.core.unlocked, s.secrets, email, call, now);
      (s.(secrets := secrets'), response)
    case Keys(call) =>
      var (ring', signed', response) := KeyStep(suite, s.core.unlocked, s.ring, s.signed, email, call, now);
      (s.(ring := ring', signed := signed'), response)
    case VerifyAudit => (s, Verdict(AuditModel.Check(suite, s.audit)))
  }

  ghost function Step(suite: Suite, s: State, request: Request): (State, Response) {
    match request
    case Vault(call) =>
      var (core', response) := VaultStep(suite, s.core, call);
      (s.(core := core'), response)
    case Register(email, password, confirmation) =>
      var (accounts', r) := LockoutModel.Register(s.accounts, email, password, confirmation);
      (s.(accounts := accounts'), Reply(r, x => Text(x)))
    case Login(email, password, now, token) =>
      var (accounts', r) := LockoutModel.Login(s.accounts, email, password, now, token);
      (s.(accounts := accounts'), Reply(r, x => Text(x)))
    case As(email, clientIp, use, now) =>
      var (s', response) := UseStep(suite, s, email, use, now);
      (s'.(audit := Audited(suite, s'.audit, email, clientIp, use, response)), response)
  }

  /** The state after a sequence of requests. */
  ghost function Run(suite: Suite, s: State, requests: seq<Request>): State {
    if requests == [] then s
    else Step(suite, Run(suite, s, requests[..|requests| - 1]), requests[|requests| - 1]).0
  }

  /** The state before request i of a run from an empty database. */
  ghost function Before(suite: Suite, requests: seq<Request>, i: nat): State
    requires i <= |requests|
  {
    Run(suite, Start(), requests[..i])
  }

  /** What request i of such a run was answered. */
  ghost function Answer(suite: Suite, requests: seq<Request>, i: nat): Response
    requires i < |requests|
  {
    Step(suite, Before(suite, requests, i), requests[i]).1
  }

  lemma AtStart(suite: Suite, requests: seq<Request>)
    ensures Before(suite, requests, 0) == Start()
  {
    assert requests[..0] == [];
  }

  lemma OneStep(suite: Suite, requests: seq<Request>, i: nat)
    requires i < |requests|
    ensures Before(suite, requests, i + 1) == Step(suite, Before(suite, requests, i), requests[i]).0
  {
    assert requests[..i + 1][..i] == requests[..i];
  }

  /** While locked, every KV call fails and changes nothing. */
  lemma LockedKv(secrets: SecretsModel.Secrets, email: string, call: KvCall, now: Time)
    ensures KvStep(false, secrets, email, call, now).0 == secrets
    ensures KvStep(false, secrets, email, call, now).1.Failed?
  {
    hide Validation.ValidatePath;
  }

  /** While locked, every transit call fails and changes nothing. */
  lemma LockedKeys(suite: Suite, ring: KeyringModel.Keyring, signed: set<Signature>, email: string, call: KeyCall,
    now: Time)
    ensures KeyStep(suite, false, ring, signed, email, call, now).0 == ring
    ensures KeyStep(suite, false, ring, signed, email, call, now).1 == signed
    ensures KeyStep(suite, false, ring, signed, email, call, now).2.Failed?
  {
    hide Validation.ValidKeyName, Envelope.Parse;
  }
}
