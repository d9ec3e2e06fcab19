/** app/router.py: every handler over the tables, proved to take exactly the step of the state machine. */
module Router {
  import opened Basics
  import opened Validation
  import opened Contexts
  import opened Crypto
  import opened Database
  import opened KeyTables
  import opened Nonces
  import opened SecretTables
  import opened System
  import Audit
  import AuditModel
  import KeyValue
  import KeyringModel
  import Login
  import SecretsModel
  import Transit
  import VaultCore
  import VaultModel
  import Wrappings

  ghost predicate EmptyUntilInit(core: VaultModel.Core, ring: KeyringModel.Keyring, values: SecretsModel.Secrets) {
    core.master.None? ==> !core.unlocked && ring == map[] && values == map[]
  }

  lemma CoreFacts(config: Option<VaultConfig>, dek: Option<Bytes>, core: VaultModel.Core, log: SealLog)
    requires VaultCore.CoreAgrees(config, dek, core, log)
    ensures Transit.DekHeld(dek, core) && (core.unlocked <==> dek.Some?)
  {
  }

  lemma CoreUndisturbed(config: Option<VaultConfig>, dek: Option<Bytes>, core: VaultModel.Core, log: SealLog,
    log': SealLog, engine: char)
    requires VaultCore.CoreAgrees(config, dek, core, log) && TouchesOnly(log, log', {engine}) && engine != 'm'
    ensures VaultCore.CoreAgrees(config, dek, core, log')
  {
    assert Engine(DEK_AAD) == 'm';
  }

  lemma SecretsUndisturbed(t: SecretTables, log: SealLog, log': SealLog, dek: Bytes, engine: char)
    requires SecretsAgree(t, log, dek) && TouchesOnly(log, log', {engine})
    ensures SecretsAgree(t, log', dek)
  {
    GrowthKeepsSecrets(t, log, log', dek);
  }

  /** Before `init` there are no rows, so the DEK it draws fits them. */
  lemma FirstDekKeys(suite: Suite, t: KeyTables, log: SealLog, log': SealLog, dek: Bytes, dek': Bytes)
    requires KeysAgree(suite, t, log, dek) && t.ring == map[] && TouchesOnly(log, log', {'m'})
    ensures KeysAgree(suite, t, log', dek')
  {
    GrowthKeepsKeys(suite, t, log, log', dek);
    forall id | id in t.rows
      ensures t.rows[id].kid in t.ring
    {
      RowHasKey(t, id);
    }
    assert t.rows == map[];
  }

  lemma FirstDekSecrets(t: SecretTables, log: SealLog, log': SealLog, dek: Bytes, dek': Bytes)
    requires SecretsAgree(t, log, dek) && t.values == map[]
    ensures SecretsAgree(t, log', dek')
  {
    forall id | id in t.rows
      ensures t.rows[id].path in t.values
    {
      RowMatches(t, log, dek, id);
    }
    assert t.rows == map[];
  }

  /** What `init` does to the rest: it seals one thing elsewhere, and any rows keep their DEK. */
  lemma InitUndisturbed(suite: Suite, k: KeyTables, s: SecretTables, core: VaultModel.Core, core': VaultModel.Core,
    log: SealLog, log': SealLog)
    requires KeysAgree(suite, k, log, Transit.DekOf(core)) && Wrappings.WrapsAgree(k.ring, log)
    requires SecretsAgree(s, log, Transit.DekOf(core)) && EmptyUntilInit(core, k.ring, s.values)
    requires TouchesOnly(log, log', {'m'}) && (core.master.Some? ==> core' == core)
    ensures KeysAgree(suite, k, log', Transit.DekOf(core')) && Wrappings.WrapsAgree(k.ring, log')
    ensures SecretsAgree(s, log', Transit.DekOf(core'))
  {
    hide KeysAgree, SecretsAgree, Wrappings.WrapsAgree;
    Wrappings.SealingElsewhere(k.ring, log, log', 'm');
    if core.master.Some? {
      GrowthKeepsKeys(suite, k, log, log', Transit.DekOf(core));
      GrowthKeepsSecrets(s, log, log', Transit.DekOf(core));
    } else {
      FirstDekKeys(suite, k, log, log', Transit.DekOf(core), Transit.DekOf(core'));
      FirstDekSecrets(s, log, log', Transit.DekOf(core), Transit.DekOf(core'));
    }
  }

  /** What a KV write does to the rest. */
  lemma WritingUndisturbed(suite: Suite, config: Option<VaultConfig>, held: Option<Bytes>, core: VaultModel.Core,
    k: KeyTables,
    log: SealLog, log': SealLog)
    requires VaultCore.CoreAgrees(config, held, core, log) && KeysAgree(suite, k, log, Transit.DekOf(core))
    requires Wrappings.WrapsAgree(k.ring, log) && TouchesOnly(log, log', {'s'})
    ensures VaultCore.CoreAgrees(config, held, core, log') && KeysAgree(suite, k, log', Transit.DekOf(core))
    ensures Wrappings.WrapsAgree(k.ring, log')
  {
    hide VaultCore.CoreAgrees, KeysAgree, Wrappings.WrapsAgree;
    CoreUndisturbed(config, held, core, log, log', 's');
    Wrappings.SealingElsewhere(k.ring, log, log', 's');
    GrowthKeepsKeys(suite, k, log, log', Transit.DekOf(core));
  }

  /** What a sealing transit call does to the rest. */
  lemma SealingUndisturbed(config: Option<VaultConfig>, dek: Option<Bytes>, core: VaultModel.Core, s: SecretTables,
    log: SealLog, log': SealLog, engine: char)
    requires VaultCore.CoreAgrees(config, dek, core, log) && SecretsAgree(s, log, Transit.DekOf(core))
    requires TouchesOnly(log, log', {engine}) && engine != 'm'
    ensures VaultCore.CoreAgrees(config, dek, core, log') && SecretsAgree(s, log', Transit.DekOf(core))
  {
    hide VaultCore.CoreAgrees, SecretsAgree, TouchesOnly;
    CoreUndisturbed(config, dek, core, log, log', engine);
    SecretsUndisturbed(s, log, log', Transit.DekOf(core), engine);
  }

  class App {
    const db: Tables
    const state: VaultState
    const crypto: CryptoService
    const audit: Audit.AuditTable

    ghost function Keyring(): KeyTables
      reads db
    {
      KeyTables(db.keys, db.keyVersions, db.keyHistory, db.ring)
    }

    ghost function Secrets(): SecretTables
      reads db
    {
      SecretTables(db.secrets, db.secretVersions, db.valueHistory, db.values)
    }

    ghost predicate Valid()
      reads this, db, state, crypto, audit
    {
      && crypto.Valid() && audit.suite == crypto.suite
      && audit.present && audit.hasPreviousColumn && audit.hasHashColumn
      && VaultCore.CoreAgrees(db.vaultConfig, state.dek, db.core, crypto.log)
      && KeysAgree(crypto.suite, Keyring(), crypto.log, Transit.DekOf(db.core))
      && Wrappings.WrapsAgree(db.ring, crypto.log)
      && SecretsAgree(Secrets(), crypto.log, Transit.DekOf(db.core))
      && Login.AccountsAgree(db.users, db.accounts)
      && EmptyUntilInit(db.core, db.ring, db.values)
    }

    /** The state of the abstract machine that the tables, the memory and the logs stand for. */
    ghost function Ideal(): State
      reads this, db, crypto, audit
    {
      State(db.core, db.ring, crypto.signatures, db.values, db.accounts, audit.rows)
    }

    /** An empty database, locked. */
    constructor (suite: Suite)
      ensures Valid() && crypto.suite == suite && Ideal() == Start()
      ensures fresh(db) && fresh(state) && fresh(crypto) && fresh(audit)
    {
      db := new Tables();
      state := new VaultState();
      crypto := new CryptoService(suite);
      audit := new Audit.AuditTable(suite);
      hide KeysAgree, Wrappings.WrapsAgree, SecretsAgree, LogOf, Consistent;
      NoKeysAgree(suite, []);
      NoSecretsAgree([]);
      Wrappings.NoWrapsAgree();
    }

    method HandleInit(passphrase: string, confirmation: string, salt: Bytes, dek: Bytes, nonce: Nonce)
      returns (response: Response)
      requires Valid()
      modifies db`vaultConfig, db`core, state, crypto`log, crypto`calls
      ensures Valid()
      ensures (Ideal(), response) == Step(crypto.suite, old(Ideal()),
        Vault(Init(passphrase, confirmation, salt, dek, nonce)))
      ensures AtMostOneSeal(old(crypto.calls), crypto.calls, Some(nonce))
    {
      hide KeysAgree, Wrappings.WrapsAgree, SecretsAgree, Login.AccountsAgree, StrongPassphrase, LogOf, Consistent;
      hide TouchesOnly, VaultCore.CoreAgrees;
      CoreFacts(db.vaultConfig, state.dek, db.core, crypto.log);
      ghost var log0, core0, k, s := crypto.log, db.core, Keyring(), Secrets();
      var service := new VaultCore.VaultService(db, state, crypto);
      var r := service.Init(passphrase, confirmation, salt, dek, nonce);
      InitUndisturbed(crypto.suite, k, s, core0, db.core, log0, crypto.log);
      response := Reply(r, _ => Done);
    }

    method HandleVault(call: VaultCall) returns (response: Response)
      requires Valid()
      modifies db`vaultConfig, db`core, state, crypto`log, crypto`calls, audit
      ensures Valid()
      ensures (Ideal(), response) == Step(crypto.suite, old(Ideal()), Vault(call))
      ensures AtMostOneSeal(old(crypto.calls), crypto.calls, NonceOf(Vault(call)))
    {
      hide KeysAgree, Wrappings.WrapsAgree, SecretsAgree, Login.AccountsAgree, StrongPassphrase, LogOf, Consistent;
      hide VaultModel.Init, VaultCore.CoreAgrees;
      var service := new VaultCore.VaultService(db, state, crypto);
      match call {
        case Init(passphrase, confirmation, salt, dek, nonce) =>
          response := HandleInit(passphrase, confirmation, salt, dek, nonce);
        case Unlock(passphrase) =>
          var r := service.Unlock(passphrase);
          response := Reply(r, _ => Done);
        case Lock =>
          service.Lock();
          response := Done;
        case Restart =>
          audit.EnsureSchema();
          service.Lock();
          response := Done;
      }
    }

    method HandleRegister(email: string, password: string, confirmation: string) returns (response: Response)
      requires Valid()
      modifies db`users, db`accounts
      ensures Valid()
      ensures (Ideal(), response) == Step(crypto.suite, old(Ideal()), Register(email, password, confirmation))
    {
      hide KeysAgree, Wrappings.WrapsAgree, SecretsAgree, Login.AccountsAgree, VaultCore.CoreAgrees;
      var service := new Login.AuthService(db);
      var r := service.Register(email, password, confirmation);
      response := Reply(r, x => Text(x));
    }

    method HandleLogin(email: string, password: string, now: Time, token: string) returns (response: Response)
      requires Valid()
      modifies db`users, db`accounts
      ensures Valid()
      ensures (Ideal(), response) == Step(crypto.suite, old(Ideal()), System.Login(email, password, now, token))
    {
      hide KeysAgree, Wrappings.WrapsAgree, SecretsAgree, Login.AccountsAgree, VaultCore.CoreAgrees;
      var service := new Login.AuthService(db);
      var r := service.Login(email, password, now, token);
      response := Reply(r, x => Text(x));
    }

    method HandleKvWrite(email: string, call: KvCall, now: Time) returns (response: Response)
      requires Valid() && ValidEmail(email) && call.KvWrite?
      modifies db`secrets, db`secretVersions, db`valueHistory, db`values, crypto`log, crypto`calls
      ensures Valid()
      ensures (Ideal(), response) == UseStep(crypto.suite, old(Ideal()), email, Kv(call), now)
      ensures AtMostOneSeal(old(crypto.calls), crypto.calls, UseNonce(Kv(call)))
    {
      hide KeysAgree, Wrappings.WrapsAgree, SecretsAgree, Login.AccountsAgree, VaultCore.CoreAgrees;
      hide SecretsModel.Write, SecretsModel.Read, SecretsModel.Versions, SecretsModel.Delete, SecretsModel.List, LogOf,
        Consistent;
      hide TouchesOnly, Transit.DekHeld, ValidEmail;
      CoreFacts(db.vaultConfig, state.dek, db.core, crypto.log);
      LockedKv(db.values, email, call, now);
      var service := new KeyValue.KVService(db, state, crypto);
      ghost var log0, k := crypto.log, Keyring();
      var r := service.Write(call.path, email, call.data, call.nonce, now);
      WritingUndisturbed(crypto.suite, db.vaultConfig, state.dek, db.core, k, log0, crypto.log);
      response := Reply(r, x => Written(x));
    }

    method HandleOtherKv(email: string, call: KvCall, now: Time) returns (response: Response)
      requires Valid() && ValidEmail(email) && !call.KvWrite?
      modifies db`secrets, db`secretVersions, db`valueHistory, db`values
      ensures Valid()
      ensures (Ideal(), response) == UseStep(crypto.suite, old(Ideal()), email, Kv(call), now)
    {
      hide KeysAgree, Wrappings.WrapsAgree, SecretsAgree, Login.AccountsAgree, VaultCore.CoreAgrees;
      hide SecretsModel.Write, SecretsModel.Read, SecretsModel.Versions, SecretsModel.Delete, SecretsModel.List, LogOf,
        Consistent;
      hide TouchesOnly, Transit.DekHeld, ValidEmail;
      CoreFacts(db.vaultConfig, state.dek, db.core, crypto.log);
      LockedKv(db.values, email, call, now);
      var service := new KeyValue.KVService(db, state, crypto);
      match call {
        case KvRead(path, version) =>
          var r := service.Read(path, email, version);
          response := Reply(r, x => Found(x));
        case KvVersions(path) =>
          var r := service.Versions(path, email);
          response := Reply(r, x => History(x));
        case KvDelete(path) =>
          var r := service.Delete(path, email);
          response := Reply(r, _ => Done);
        case KvList =>
          var r := service.List(email);
          response := Reply(r, x => Listing(x));
      }
    }

    /** Key creation. */
    method HandleCreate(email: string, call: KeyCall, now: Time) returns (response: Response)
      requires Valid() && ValidEmail(email) && (call.CreateAes? || call.CreateSigning?)
      modifies db`keys, db`keyVersions, db`keyHistory, db`ring, crypto`log, crypto`calls, crypto`signatures
      ensures Valid()
      ensures (Ideal(), response) == UseStep(crypto.suite, old(Ideal()), email, Keys(call), now)
      ensures AtMostOneSeal(old(crypto.calls), crypto.calls, UseNonce(Keys(call)))
    {
      hide KeysAgree, Wrappings.WrapsAgree, SecretsAgree, Login.AccountsAgree, VaultCore.CoreAgrees;
      hide KeyringModel.Create, KeyringModel.List, KeyringModel.Get, KeyringModel.Rotate, KeyringModel.Revoke,
        KeyringModel.Encrypt;
      hide KeyringModel.Decrypt, KeyringModel.Sign, KeyringModel.Verify, LogOf, Consistent, TouchesOnly,
        Transit.DekHeld, ValidEmail;
      CoreFacts(db.vaultConfig, state.dek, db.core, crypto.log);
      LockedKeys(crypto.suite, db.ring, crypto.signatures, email, call, now);
      ghost var log0, s := crypto.log, Secrets();
      var service := new Transit.TransitService(db, state, crypto);
      match call {
        case CreateAes(name, material, nonce) =>
          var r := service.CreateAes(email, name, material, nonce, now);
          SealingUndisturbed(db.vaultConfig, state.dek, db.core, s, log0, crypto.log, 'k');
          response := Reply(r, x => KeyInfo(x));
        case CreateSigning(name, seed, nonce) =>
          var r := service.CreateSigning(email, name, seed, nonce, now);
          SealingUndisturbed(db.vaultConfig, state.dek, db.core, s, log0, crypto.log, 'k');
          response := Reply(r, x => KeyInfo(x));
      }
    }

    /** Rotation. */
    method HandleRotate(email: string, call: KeyCall, now: Time) returns (response: Response)
      requires Valid() && ValidEmail(email) && call.Rotate?
      modifies db`keys, db`keyVersions, db`keyHistory, db`ring, crypto`log, crypto`calls, crypto`signatures
      ensures Valid()
      ensures (Ideal(), response) == UseStep(crypto.suite, old(Ideal()), email, Keys(call), now)
      ensures AtMostOneSeal(old(crypto.calls), crypto.calls, UseNonce(Keys(call)))
    {
      hide KeysAgree, Wrappings.WrapsAgree, SecretsAgree, Login.AccountsAgree, VaultCore.CoreAgrees;
      hide KeyringModel.Create, KeyringModel.List, KeyringModel.Get, KeyringModel.Rotate, KeyringModel.Revoke,
        KeyringModel.Encrypt;
      hide KeyringModel.Decrypt, KeyringModel.Sign, KeyringModel.Verify, LogOf, Consistent, TouchesOnly,
        Transit.DekHeld, ValidEmail;
      CoreFacts(db.vaultConfig, state.dek, db.core, crypto.log);
      LockedKeys(crypto.suite, db.ring, crypto.signatures, email, call, now);
      ghost var log0, s := crypto.log, Secrets();
      var service := new Transit.TransitService(db, state, crypto);
      var r := service.Rotate(email, call.name, call.material, call.nonce, now);
      SealingUndisturbed(db.vaultConfig, state.dek, db.core, s, log0, crypto.log, 'k');
      response := Reply(r, x => KeyInfo(x));
    }

    /** Encryption. */
    method HandleEncrypt(email: string, call: KeyCall, now: Time) returns (response: Response)
      requires Valid() && ValidEmail(email) && call.Encrypt?
      modifies db`keys, db`keyVersions, db`keyHistory, db`ring, crypto`log, crypto`calls, crypto`signatures
      ensures Valid()
      ensures (Ideal(), response) == UseStep(crypto.suite, old(Ideal()), email, Keys(call), now)
      ensures AtMostOneSeal(old(crypto.calls), crypto.calls, UseNonce(Keys(call)))
    {
      hide KeysAgree, Wrappings.WrapsAgree, SecretsAgree, Login.AccountsAgree, VaultCore.CoreAgrees;
      hide KeyringModel.Create, KeyringModel.List, KeyringModel.Get, KeyringModel.Rotate, KeyringModel.Revoke,
        KeyringModel.Encrypt;
      hide KeyringModel.Decrypt, KeyringModel.Sign, KeyringModel.Verify, LogOf, Consistent, TouchesOnly,
        Transit.DekHeld, ValidEmail;
      CoreFacts(db.vaultConfig, state.dek, db.core, crypto.log);
      LockedKeys(crypto.suite, db.ring, crypto.signatures, email, call, now);
      ghost var log0, s := crypto.log, Secrets();
      var service := new Transit.TransitService(db, state, crypto);
      var r := service.Encrypt(email, call.name, call.plaintext64, call.nonce);
      SealingUndisturbed(db.vaultConfig, state.dek, db.core, s, log0, crypto.log, 't');
      response := Reply(r, x => Text(x));
    }

    /** The transit calls that seal nothing. */
    method HandleOtherKeys(email: string, call: KeyCall, now: Time) returns (response: Response)
      requires Valid() && ValidEmail(email) && UseNonce(Keys(call)).None?
      modifies db`keys, db`ring, crypto`signatures
      ensures Valid()
      ensures (Ideal(), response) == UseStep(crypto.suite, old(Ideal()), email, Keys(call), now)
    {
      hide KeysAgree, Wrappings.WrapsAgree, SecretsAgree, Login.AccountsAgree, VaultCore.CoreAgrees;
      hide KeyringModel.Create, KeyringModel.List, KeyringModel.Get, KeyringModel.Rotate, KeyringModel.Revoke,
        KeyringModel.Encrypt;
      hide KeyringModel.Decrypt, KeyringModel.Sign, KeyringModel.Verify, LogOf, Consistent, TouchesOnly,
        Transit.DekHeld, ValidEmail;
      CoreFacts(db.vaultConfig, state.dek, db.core, crypto.log);
      LockedKeys(crypto.suite, db.ring, crypto.signatures, email, call, now);
      var service := new Transit.TransitService(db, state, crypto);
      match call {
        case ListKeys =>
          var r := service.List(email);
          response := Reply(r, x => KeySet(x));
        case GetKey(name) =>
          var r := service.Get(email, name);
          response := Reply(r, x => KeyInfo(x));
        case Revoke(name) =>
          var r := service.Revoke(email, name, now);
          response := Reply(r, _ => Done);
        case Decrypt(envelope) =>
          var r := service.Decrypt(email, envelope);
          response := Reply(r, x => Text(x));
        case Sign(name, message64, isDigest) =>
          var r := service.Sign(email, name, message64, isDigest);
          response := Reply(r, x => Text(x));
        case Verify(name, message64, isDigest, signature64, algorithm) =>
          var r := service.Verify(email, name, message64, isDigest, signature64, algorithm);
          response := Reply(r, x => Validity(x));
      }
    }

    method DeniedAudit(email: string, clientIp: string, use: Call, response: Response)
      requires Valid()
      modifies audit`rows
      ensures Valid()
      ensures audit.rows == Audited(crypto.suite, old(audit.rows), email, clientIp, use, response)
    {
      hide KeysAgree, Wrappings.WrapsAgree, SecretsAgree, Login.AccountsAgree, VaultCore.CoreAgrees, LogOf, Consistent,
        AuditModel.Extend, AuditModel.Chain;
      if response == Failed(PermissionDenied) && HookOf(use).Some? {
        var hook := HookOf(use).value;
        audit.Record(email, hook.action, hook.resourceType, hook.identifier, "DENIED", clientIp);
      }
    }

    method HandleVerifyAudit(email: string, now: Time) returns (response: Response)
      requires Valid()
      ensures (Ideal(), response) == UseStep(crypto.suite, Ideal(), email, VerifyAudit, now)
    {
      hide KeysAgree, Wrappings.WrapsAgree, SecretsAgree, Login.AccountsAgree, VaultCore.CoreAgrees;
      var verdict := audit.Verify();
      response := Verdict(verdict);
    }

    /** One authenticated request: the service call, then the audit row if it was denied. */
    method HandleUse(email: string, clientIp: string, use: Call, now: Time) returns (response: Response)
      requires Valid() && ValidEmail(email)
      modifies db, state, crypto, audit
      ensures Valid()
      ensures (Ideal(), response) == Step(crypto.suite, old(Ideal()), As(email, clientIp, use, now))
      ensures AtMostOneSeal(old(crypto.calls), crypto.calls, UseNonce(use))
    {
      hide Valid, UseStep, Audited, ValidEmail;
      match use {
        case Kv(call) =>
          if call.KvWrite? {
            response := HandleKvWrite(email, call, now);
          } else {
            response := HandleOtherKv(email, call, now);
          }
        case Keys(call) =>
          if call.CreateAes? || call.CreateSigning? {
            response := HandleCreate(email, call, now);
          } else if call.Rotate? {
            response := HandleRotate(email, call, now);
          } else if call.Encrypt? {
            response := HandleEncrypt(email, call, now);
          } else {
            response := HandleOtherKeys(email, call, now);
          }
        case VerifyAudit =>
          response := HandleVerifyAudit(email, now);
      }
      DeniedAudit(email, clientIp, use, response);
    }

    method Handle(request: Request) returns (response: Response)
      requires Valid() && Admissible(request)
      modifies db, state, crypto, audit
      ensures Valid()
      ensures (Ideal(), response) == Step(crypto.suite, old(Ideal()), request)
      ensures AtMostOneSeal(old(crypto.calls), crypto.calls, NonceOf(request))
    {
      hide Valid, Ideal, Step, ValidEmail;
      match request {
        case Vault(call) => response := HandleVault(call);
        case Register(email, password, confirmation) => response := HandleRegister(email, password, confirmation);
        case Login(email, password, now, token) => response := HandleLogin(email, password, now, token);
        case As(email, clientIp, use, now) => response := HandleUse(email, clientIp, use, now);
      }
    }

    /** Any sequence of requests is served exactly as the abstract machine runs it. */
    method Serve(requests: seq<Request>) returns (responses: seq<Response>)
      requires Valid() && forall i | 0 <= i < |requests| :: Admissible(requests[i])
      modifies db, state, crypto, audit
      ensures Valid() && Ideal() == Run(crypto.suite, old(Ideal()), requests)
      ensures |responses| == |requests|
      ensures forall i | 0 <= i < |requests| ::
        responses[i] == Step(crypto.suite, Run(crypto.suite, old(Ideal()), requests[..i]), requests[i]).1
      ensures FreshNonces(old(crypto.calls), requests) && DistinctNonces(old(crypto.calls)) ==>
        DistinctNonces(crypto.calls)
    {
      hide Valid, Ideal, Step, Admissible, FreshNonces, StaysApart, AtMostOneSeal, DistinctNonces, NonceOf;
      ghost var calls := crypto.calls;
      NothingSealed(calls, requests);
      responses := [];
      for n := 0 to |requests|
        invariant Valid() && Ideal() == Run(crypto.suite, old(Ideal()), requests[..n])
        invariant |responses| == n
        invariant StaysApart(calls, crypto.calls, requests, n)
        invariant forall i | 0 <= i < n ::
          responses[i] == Step(crypto.suite, Run(crypto.suite, old(Ideal()), requests[..i]), requests[i]).1
      {
        assert requests[..n + 1][..n] == requests[..n];
        ghost var sofar := crypto.calls;
        var response := Handle(requests[n]);
        OneMoreRequest(calls, sofar, crypto.calls, requests, n);
        responses := responses + [response];
      }
      assert requests[..|requests|] == requests;
      AllApart(calls, crypto.calls, requests);
    }
  }
}
