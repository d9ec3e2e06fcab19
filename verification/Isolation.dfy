/** Other users cannot influence what one user sees. */
module Isolation {
  import opened Basics
  import opened Validation
  import opened Contexts
  import opened Crypto
  import opened System
  import AuditModel
  import AuditRuns
  import Base64
  import Envelope
  import KeyringModel
  import LockoutModel
  import SecretsModel

  /** The operator's requests and the user's own. */
  predicate Concerns(request: Request, user: string) {
    match request
    case Vault(_) => true
    case Register(email, _, _) => email == user
    case Login(email, _, _, _) => email == user
    case As(email, _, _, _) => email == user
  }

  ghost predicate SameKeys(user: string, a: KeyringModel.Keyring, b: KeyringModel.Keyring) {
    forall kid: KeyId | kid.owner == user :: (kid in a <==> kid in b) && (kid in a ==> a[kid] == b[kid])
  }

  ghost predicate SameSecrets(user: string, a: SecretsModel.Secrets, b: SecretsModel.Secrets) {
    forall path | Owns(user, path) :: (path in a <==> path in b) && (path in a ==> a[path] == b[path])
  }

  ghost predicate SameSignatures(publics: set<Bytes>, a: set<Signature>, b: set<Signature>) {
    forall signature: Signature | signature.public in publics :: signature in a <==> signature in b
  }

  /** The user's signing keys, and nobody else's, have their public keys in the set. */
  ghost predicate OwnPublics(suite: Suite, publics: set<Bytes>, user: string, ring: KeyringModel.Keyring) {
    forall kid | kid in ring && ring[kid].SigningKey? :: suite.public(ring[kid].seed) in publics <==> kid.owner == user
  }

  /** The two states look the same to the user. */
  ghost predicate SameFor(suite: Suite, publics: set<Bytes>, user: string, s: State, t: State) {
    && s.core == t.core
    && SameKeys(user, s.ring, t.ring)
    && SameSignatures(publics, s.signed, t.signed)
    && SameSecrets(user, s.secrets, t.secrets)
    && (user in s.accounts <==> user in t.accounts) && (user in s.accounts ==> s.accounts[user] == t.accounts[user])
    && AuditModel.Chain(suite, s.audit) && AuditModel.Chain(suite, t.audit)
    && OwnPublics(suite, publics, user, s.ring)
  }

  /** The request generates this user's signing keys inside the set and everybody else's outside. */
  predicate DrawsApart(suite: Suite, publics: set<Bytes>, user: string, request: Request) {
    request.As? && request.use.Keys? && request.use.key.CreateSigning? ==>
      (suite.public(request.use.key.seed) in publics <==> request.email == user)
  }

  lemma SameListing(unlocked: bool, user: string, a: SecretsModel.Secrets, b: SecretsModel.Secrets)
    requires SameSecrets(user, a, b)
    ensures SecretsModel.List(unlocked, a, user) == SecretsModel.List(unlocked, b, user)
  {
    hide Owns;
    var paths := SecretsModel.PathsOf(a, user);
    assert paths == SecretsModel.PathsOf(b, user);
    var sorted := SecretsModel.Sorted(paths);
    forall i | 0 <= i < |sorted| ensures sorted[i] in paths {
      SecretsModel.SortedIsComplete(paths, sorted[i]);
    }
    assert SecretsModel.Summaries(a, sorted) == SecretsModel.Summaries(b, sorted);
  }

  /** The user's own KV call. */
  lemma OwnKv(unlocked: bool, a: SecretsModel.Secrets, b: SecretsModel.Secrets, user: string, call: KvCall, now: Time)
    requires SameSecrets(user, a, b)
    ensures KvStep(unlocked, a, user, call, now).1 == KvStep(unlocked, b, user, call, now).1
    ensures SameSecrets(user, KvStep(unlocked, a, user, call, now).0, KvStep(unlocked, b, user, call, now).0)
  {
    hide ValidatePath, SecretsModel.List;
    if call.KvList? {
      SameListing(unlocked, user, a, b);
    }
  }

  /** Somebody else's KV call. */
  lemma OthersKv(unlocked: bool, a: SecretsModel.Secrets, user: string, other: string, call: KvCall, now: Time)
    requires ValidEmail(user) && ValidEmail(other) && other != user
    ensures SameSecrets(user, KvStep(unlocked, a, other, call, now).0, a)
  {
    forall path | Owns(user, path) && Owns(other, path) ensures false {
      OwnerIsUnique(path, user, other);
    }
    hide ValidatePath, ValidEmail, SecretsModel.List;
  }

  lemma SameDescriptions(unlocked: bool, user: string, a: KeyringModel.Keyring, b: KeyringModel.Keyring)
    requires SameKeys(user, a, b)
    ensures KeyringModel.List(unlocked, a, user) == KeyringModel.List(unlocked, b, user)
  {
    var kids := KeyringModel.UsableKeys(a, user);
    assert kids == KeyringModel.UsableKeys(b, user);
    assert KeyringModel.Descriptions(a, kids) == KeyringModel.Descriptions(b, kids);
  }

  /** The user's own calls that only read the keyring. */
  lemma OwnKeyReading(unlocked: bool, a: KeyringModel.Keyring, b: KeyringModel.Keyring, user: string, name: string,
    envelope: string)
    requires SameKeys(user, a, b)
    ensures KeyringModel.Get(unlocked, a, KeyId(user, name)) == KeyringModel.Get(unlocked, b, KeyId(user, name))
    ensures KeyringModel.List(unlocked, a, user) == KeyringModel.List(unlocked, b, user)
    ensures KeyringModel.Decrypt(unlocked, a, user, envelope) == KeyringModel.Decrypt(unlocked, b, user, envelope)
  {
    hide Envelope.Parse, Base64.B64e, KeyringModel.List;
    SameDescriptions(unlocked, user, a, b);
  }

  /** The user's own signing and verifying. */
  lemma OwnSigning(suite: Suite, publics: set<Bytes>, unlocked: bool, a: KeyringModel.Keyring, b: KeyringModel.Keyring,
    x: set<Signature>, y: set<Signature>, user: string, call: KeyCall, now: Time)
    requires SameKeys(user, a, b) && SameSignatures(publics, x, y) && OwnPublics(suite, publics, user, a)
    requires call.Sign? || call.Verify?
    ensures KeyStep(suite, unlocked, a, x, user, call, now).2 == KeyStep(suite, unlocked, b, y, user, call, now).2
    ensures SameSignatures(publics, KeyStep(suite, unlocked, a, x, user, call, now).1,
      KeyStep(suite, unlocked, b, y, user, call, now).1)
  {
    hide Base64.B64d, Base64.B64e;
  }

  /** The user's own transit call. */
  lemma OwnKeyCall(suite: Suite, publics: set<Bytes>, unlocked: bool, a: KeyringModel.Keyring, b: KeyringModel.Keyring,
    x: set<Signature>, y: set<Signature>, user: string, call: KeyCall, now: Time)
    requires SameKeys(user, a, b) && SameSignatures(publics, x, y) && OwnPublics(suite, publics, user, a)
    ensures KeyStep(suite, unlocked, a, x, user, call, now).2 == KeyStep(suite, unlocked, b, y, user, call, now).2
    ensures SameKeys(user, KeyStep(suite, unlocked, a, x, user, call, now).0,
      KeyStep(suite, unlocked, b, y, user, call, now).0)
    ensures SameSignatures(publics, KeyStep(suite, unlocked, a, x, user, call, now).1,
      KeyStep(suite, unlocked, b, y, user, call, now).1)
  {
    hide ValidKeyName, Envelope.Print, PayloadAad, Base64.B64d;
    hide OwnPublics, SameSignatures, KeyringModel.List, KeyringModel.Get, KeyringModel.Decrypt, KeyringModel.Sign,
      KeyringModel.Verify;
    if call.Sign? || call.Verify? {
      OwnSigning(suite, publics, unlocked, a, b, x, y, user, call, now);
    } else if call.GetKey? || call.ListKeys? || call.Decrypt? {
      OwnKeyReading(unlocked, a, b, user, if call.GetKey? then call.name else "",
                    if call.Decrypt? then call.envelope else "");
    }
  }

  /** Somebody else's transit call. */
  lemma OthersKeyCall(suite: Suite, publics: set<Bytes>, unlocked: bool, a: KeyringModel.Keyring, x: set<Signature>,
    user: string, other: string, call: KeyCall, now: Time)
    requires other != user && OwnPublics(suite, publics, user, a)
    ensures SameKeys(user, KeyStep(suite, unlocked, a, x, other, call, now).0, a)
    ensures SameSignatures(publics, KeyStep(suite, unlocked, a, x, other, call, now).1, x)
  {
    hide ValidKeyName, Envelope.Parse, Envelope.Print, PayloadAad, Base64.B64d, Base64.B64e, KeyringModel.List;
  }

  lemma StepKeepsOwnPublics(suite: Suite, publics: set<Bytes>, unlocked: bool, a: KeyringModel.Keyring,
    x: set<Signature>,
    user: string, email: string, call: KeyCall, now: Time)
    requires OwnPublics(suite, publics, user, a)
    requires call.CreateSigning? ==> (suite.public(call.seed) in publics <==> email == user)
    ensures OwnPublics(suite, publics, user, KeyStep(suite, unlocked, a, x, email, call, now).0)
  {
    hide ValidKeyName, Envelope.Parse, Envelope.Print, PayloadAad, Base64.B64d, Base64.B64e, KeyringModel.List;
  }

  /** A step the user sees takes states that look the same to states that look the same, with the same answer. */
  lemma OwnStep(suite: Suite, publics: set<Bytes>, user: string, s: State, t: State, request: Request)
    requires SameFor(suite, publics, user, s, t) && Concerns(request, user) && DrawsApart(suite, publics, user, request)
    ensures Step(suite, s, request).1 == Step(suite, t, request).1
    ensures SameFor(suite, publics, user, Step(suite, s, request).0, Step(suite, t, request).0)
  {
    hide SameKeys, SameSecrets, SameSignatures, OwnPublics, AuditModel.Chain, AuditModel.Check;
    hide VaultStep, KvStep, KeyStep, Audited, StrongPassphrase, LockoutModel.Locked;
    AuditRuns.StepKeepsChain(suite, s, request);
    AuditRuns.StepKeepsChain(suite, t, request);
    AuditModel.IntactIffChain(suite, s.audit);
    AuditModel.IntactIffChain(suite, t.audit);
    if request.As? && request.use.Kv? {
      OwnKv(s.core.unlocked, s.secrets, t.secrets, user, request.use.kv, request.now);
    }
    if request.As? && request.use.Keys? {
      OwnKeyCall(suite, publics, s.core.unlocked, s.ring, t.ring, s.signed, t.signed, user, request.use.key,
        request.now);
      StepKeepsOwnPublics(suite, publics, s.core.unlocked, s.ring, s.signed, user, user, request.use.key, request.now);
    }
  }

  lemma SameTransitive(suite: Suite, publics: set<Bytes>, user: string, r: State, s: State, t: State)
    requires SameKeys(user, r.ring, s.ring) && SameKeys(user, s.ring, t.ring)
    requires SameSignatures(publics, r.signed, s.signed) && SameSignatures(publics, s.signed, t.signed)
    requires SameSecrets(user, r.secrets, s.secrets) && SameSecrets(user, s.secrets, t.secrets)
    ensures SameKeys(user, r.ring, t.ring) && SameSignatures(publics, r.signed, t.signed)
      && SameSecrets(user, r.secrets, t.secrets)
  {
    hide Owns;
  }

  lemma SameReflexive(publics: set<Bytes>, user: string, s: State)
    ensures SameKeys(user, s.ring, s.ring) && SameSignatures(publics, s.signed, s.signed)
      && SameSecrets(user, s.secrets, s.secrets)
  {
    hide Owns;
  }

  /** A step of somebody else leaves the state looking the same to the user. */
  lemma OthersStep(suite: Suite, publics: set<Bytes>, user: string, s: State, t: State, request: Request)
    requires SameFor(suite, publics, user, s, t) && !Concerns(request, user)
      && DrawsApart(suite, publics, user, request)
    requires ValidEmail(user) && Admissible(request)
    ensures SameFor(suite, publics, user, Step(suite, s, request).0, t)
  {
    hide SameKeys, SameSecrets, SameSignatures, OwnPublics, AuditModel.Chain, ValidEmail;
    hide VaultStep, KvStep, KeyStep, Audited, StrongPassphrase, LockoutModel.Locked;
    var s' := Step(suite, s, request).0;
    AuditRuns.StepKeepsChain(suite, s, request);
    SameReflexive(publics, user, s);
    if request.As? && request.use.Kv? {
      OthersKv(s.core.unlocked, s.secrets, user, request.email, request.use.kv, request.now);
    }
    if request.As? && request.use.Keys? {
      OthersKeyCall(suite, publics, s.core.unlocked, s.ring, s.signed, user, request.email, request.use.key,
        request.now);
      StepKeepsOwnPublics(suite, publics, s.core.unlocked, s.ring, s.signed, user, request.email, request.use.key,
        request.now);
    }
    SameTransitive(suite, publics, user, s', s, t);
  }

  /** The requests that concern the user, in order. */
  function Kept(requests: seq<Request>, user: string): (kept: seq<Request>)
    ensures |kept| <= |requests|
  {
    if requests == [] then []
    else
      var last := requests[|requests| - 1];
      var earlier := Kept(requests[..|requests| - 1], user);
      if Concerns(last, user) then earlier + [last] else earlier
  }

  ghost predicate AllDrawApart(suite: Suite, publics: set<Bytes>, user: string, requests: seq<Request>) {
    forall i | 0 <= i < |requests| :: DrawsApart(suite, publics, user, requests[i]) && Admissible(requests[i])
  }

  /** The full run and the run of the kept requests always look the same to the user. */
  lemma {:induction false} RunsLookTheSame(suite: Suite, publics: set<Bytes>, user: string, requests: seq<Request>)
    requires ValidEmail(user) && AllDrawApart(suite, publics, user, requests)
    ensures SameFor(suite, publics, user, Run(suite, Start(), requests), Run(suite, Start(), Kept(requests, user)))
  {
    hide ValidEmail;
    if requests != [] {
      var earlier, last := requests[..|requests| - 1], requests[|requests| - 1];
      var kept := Kept(earlier, user);
      RunsLookTheSame(suite, publics, user, earlier);
      var s, t := Run(suite, Start(), earlier), Run(suite, Start(), kept);
      hide SameFor, Step, Concerns, DrawsApart, Admissible;
      if Concerns(last, user) {
        OwnStep(suite, publics, user, s, t, last);
        assert (kept + [last])[..|kept|] == kept;
      } else {
        OthersStep(suite, publics, user, s, t, last);
      }
    }
  }

  /** Where a kept request ends up. */
  lemma {:induction false} KeptPosition(requests: seq<Request>, user: string, i: nat)
    requires i < |requests| && Concerns(requests[i], user)
    ensures var n := |Kept(requests[..i], user)|;
            && n < |Kept(requests, user)| && Kept(requests, user)[n] == requests[i]
            && Kept(requests, user)[..n] == Kept(requests[..i], user)
  {
    hide Concerns;
    if i < |requests| - 1 {
      var earlier := requests[..|requests| - 1];
      assert earlier[..i] == requests[..i];
      KeptPosition(earlier, user, i);
    }
  }

  predicate CreatesSigning(request: Request) {
    request.As? && request.use.Keys? && request.use.key.CreateSigning?
  }

  /** The public keys of the key pairs the user ever generates. */
  function PublicsOf(suite: Suite, requests: seq<Request>, user: string): set<Bytes> {
    set i | 0 <= i < |requests| && CreatesSigning(requests[i]) && requests[i].email == user ::
      suite.public(requests[i].use.key.seed)
  }

  /** Nobody else ever generates a key pair the user also generates. */
  ghost predicate KeyPairsApart(suite: Suite, requests: seq<Request>, user: string) {
    forall i | 0 <= i < |requests| && CreatesSigning(requests[i]) && requests[i].email != user ::
      suite.public(requests[i].use.key.seed) !in PublicsOf(suite, requests, user)
  }

  /**
   Non-interference: dropping every other user's registrations, logins, KV and transit requests leaves every
   answer to one user unchanged.
   */
  lemma OthersDoNotInterfere(suite: Suite, requests: seq<Request>, user: string, i: nat)
    requires ValidEmail(user) && forall k | 0 <= k < |requests| :: Admissible(requests[k])
    requires KeyPairsApart(suite, requests, user)
    requires i < |requests| && Concerns(requests[i], user)
    ensures var kept := Kept(requests, user);
            var n := |Kept(requests[..i], user)|;
            n < |kept| && kept[n] == requests[i] && Answer(suite, kept, n) == Answer(suite, requests, i)
  {
    hide ValidEmail, Admissible;
    var publics := PublicsOf(suite, requests, user);
    forall k | 0 <= k < i ensures DrawsApart(suite, publics, user, requests[..i][k]) {
      assert requests[..i][k] == requests[k];
      assert DrawsApart(suite, publics, user, requests[k]);
    }
    assert DrawsApart(suite, publics, user, requests[i]);
    RunsLookTheSame(suite, publics, user, requests[..i]);
    KeptPosition(requests, user, i);
    hide Step, SameFor, Run, DrawsApart;
    OwnStep(suite, publics, user, Before(suite, requests, i), Run(suite, Start(), Kept(requests[..i], user)),
      requests[i]);
  }
}
