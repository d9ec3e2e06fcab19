/** One DEK for ever, nothing while locked, revoked for ever. */
module VaultTheorems {
  import opened Basics
  import opened Validation
  import opened Contexts
  import opened Crypto
  import opened KeyringModel
  import opened System
  import opened Lineage
  import Envelope

  lemma StepKeepsMaster(suite: Suite, s: State, request: Request)
    ensures s.core.master.Some? ==> Step(suite, s, request).0.core.master == s.core.master
    ensures Step(suite, s, request).0.core.master != s.core.master ==>
      request.Vault? && request.call.Init? && Step(suite, s, request).1 == Done
  {
    hide KvStep, KeyStep, Audited, StrongPassphrase;
  }

  /** Once initialised, the salt, the wrapping key and the DEK never change. */
  lemma {:induction false} MasterIsForever(suite: Suite, requests: seq<Request>, i: nat, j: nat)
    requires i <= j <= |requests| && Before(suite, requests, i).core.master.Some?
    ensures Before(suite, requests, j).core.master == Before(suite, requests, i).core.master
  {
    hide Before, Run, Step;
    if i < j {
      MasterIsForever(suite, requests, i, j - 1);
      OneStep(suite, requests, j - 1);
      StepKeepsMaster(suite, Before(suite, requests, j - 1), requests[j - 1]);
    }
  }

  /** `init` succeeds at most once: every later attempt is refused. */
  lemma InitOnce(suite: Suite, requests: seq<Request>, i: nat, j: nat)
    requires i < j < |requests| && requests[i].Vault? && requests[i].call.Init? && Answer(suite, requests, i) == Done
    requires requests[j].Vault? && requests[j].call.Init?
    ensures Answer(suite, requests, j) == Failed(VaultAlreadyInitialized)
  {
    OneStep(suite, requests, i);
    hide StrongPassphrase, Before;
    MasterIsForever(suite, requests, i + 1, j);
  }

  /** After `init`, exactly the passphrases that derive the same key from its salt unlock. */
  lemma UnlockNeedsThePassphrase(suite: Suite, requests: seq<Request>, i: nat, j: nat)
    requires i < j < |requests| && requests[i].Vault? && requests[i].call.Init? && Answer(suite, requests, i) == Done
    requires requests[j].Vault? && requests[j].call.Unlock?
    ensures var init, p := requests[i].call, requests[j].call.passphrase;
            Answer(suite, requests, j) ==
              if suite.kdf(p, init.salt) == suite.kdf(init.passphrase, init.salt) then Done
              else Failed(InvalidMasterPassphrase)
  {
    OneStep(suite, requests, i);
    hide StrongPassphrase, Before;
    MasterIsForever(suite, requests, i + 1, j);
  }

  /** A failed vault call changes nothing at all. */
  lemma FailedVaultCallChangesNothing(suite: Suite, s: State, call: VaultCall)
    requires Step(suite, s, Vault(call)).1.Failed?
    ensures Step(suite, s, Vault(call)).0 == s
  {
  }

  /** While locked, every KV and transit call fails and touches nothing but the audit log. */
  lemma LockedMeansUntouched(suite: Suite, s: State, request: Request)
    requires !s.core.unlocked && request.As? && !request.use.VerifyAudit?
    ensures var (s', response) := Step(suite, s, request);
            response.Failed? && s' == s.(audit := s'.audit)
  {
    hide KvStep, KeyStep, Audited;
    match request.use {
      case Kv(call) => LockedKv(s.secrets, request.email, call, request.now);
      case Keys(call) => LockedKeys(suite, s.ring, s.signed, request.email, call, request.now);
    }
  }

  /** A request that works on the named key, with the name `decrypt` reads from its envelope. */
  predicate Uses(call: KeyCall, name: string) {
    match call
    case CreateAes(n, _, _) => n == name
    case CreateSigning(n, _, _) => n == name
    case ListKeys => false
    case GetKey(n) => n == name
    case Rotate(n, _, _) => n == name
    case Revoke(n) => n == name
    case Encrypt(n, _, _) => n == name
    case Decrypt(envelope) => Envelope.Parse(envelope).Ok? && Envelope.Parse(envelope).value.name == name
    case Sign(n, _, _) => n == name
    case Verify(n, _, _, _, _) => n == name
  }

  lemma RevokedKeyRefuses(suite: Suite, unlocked: bool, ring: Keyring, signed: set<Signature>, kid: KeyId,
    call: KeyCall, now: Time)
    requires kid in ring && ring[kid].revoked
    ensures Uses(call, kid.name) ==> KeyStep(suite, unlocked, ring, signed, kid.owner, call, now).2.Failed?
    ensures call.ListKeys? ==> var r := KeyStep(suite, unlocked, ring, signed, kid.owner, call, now).2;
              r.KeySet? ==> forall info | info in r.infos :: info.name != kid.name
  {
    hide ValidKeyName, Envelope.Parse, PayloadAad;
  }

  /**
   Revocation is permanent: no later step makes that owner's key of that name usable, listable or creatable,
   and it never becomes another key.
   */
  lemma RevokedForever(suite: Suite, requests: seq<Request>, i: nat, j: nat, kid: KeyId)
    requires i <= j < |requests| && kid in Before(suite, requests, i).ring
      && Before(suite, requests, i).ring[kid].revoked
    requires requests[j].As? && requests[j].email == kid.owner && requests[j].use.Keys?
    ensures Uses(requests[j].use.key, kid.name) ==> Answer(suite, requests, j).Failed?
    ensures Answer(suite, requests, j).KeySet? && requests[j].use.key.ListKeys? ==>
      forall info | info in Answer(suite, requests, j).infos :: info.name != kid.name
  {
    KeysOnlyGrow(suite, requests, i, j);
    var t := Before(suite, requests, j);
    assert Descends(Before(suite, requests, i).ring[kid], t.ring[kid]);
    hide Before, KeyStep, Uses, Descends;
    RevokedKeyRefuses(suite, t.core.unlocked, t.ring, t.signed, kid, requests[j].use.key, requests[j].now);
  }

  /** A name keeps its kind for ever: a second creation under it is refused, revoked or not. */
  lemma NamesAreNeverReused(suite: Suite, requests: seq<Request>, i: nat, j: nat, kid: KeyId)
    requires i <= j < |requests| && kid in Before(suite, requests, i).ring
    requires requests[j].As? && requests[j].email == kid.owner && requests[j].use.Keys?
    requires requests[j].use.key.CreateAes? || requests[j].use.key.CreateSigning?
    requires requests[j].use.key.name == kid.name
    ensures Answer(suite, requests, j) ==
      if Before(suite, requests, j).core.unlocked then Failed(KeyAlreadyExists) else Failed(VaultLocked)
  {
    KeysOnlyGrow(suite, requests, i, j);
    AlwaysGenuine(suite, requests, j);
    hide Before, ValidKeyName, Descends;
    GenuineNames(suite, Before(suite, requests, j).ring, kid);
  }
}
