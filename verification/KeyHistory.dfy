/** Which keys exist, which are revoked and what versions they have, told from earlier requests and answers alone. */
module KeyHistory {
  import opened Basics
  import opened Contexts
  import opened Crypto
  import opened KeyringModel
  import opened System
  import Base64
  import Envelope
  import Validation

  predicate Asks(request: Request, owner: string, call: KeyCall) {
    request.As? && request.email == owner && request.use == Keys(call)
  }

  predicate AsksCreation(request: Request, kid: KeyId) {
    && request.As? && request.email == kid.owner && request.use.Keys?
    && (request.use.key.CreateAes? || request.use.key.CreateSigning?) && request.use.key.name == kid.name
  }

  predicate AsksRotation(request: Request, kid: KeyId) {
    && request.As? && request.email == kid.owner && request.use.Keys?
    && request.use.key.Rotate? && request.use.key.name == kid.name
  }

  /** Request i created the key. */
  ghost predicate Creates(suite: Suite, requests: seq<Request>, i: nat, kid: KeyId)
    requires i < |requests|
  {
    AsksCreation(requests[i], kid) && Answer(suite, requests, i).KeyInfo?
  }

  ghost predicate Revokes(suite: Suite, requests: seq<Request>, i: nat, kid: KeyId)
    requires i < |requests|
  {
    Asks(requests[i], kid.owner, KeyCall.Revoke(kid.name)) && Answer(suite, requests, i) == Done
  }

  ghost predicate Rotates(suite: Suite, requests: seq<Request>, i: nat, kid: KeyId)
    requires i < |requests|
  {
    AsksRotation(requests[i], kid) && Answer(suite, requests, i).KeyInfo?
  }

  /** The request that created the key, if there was one before request j. */
  ghost function Creation(suite: Suite, requests: seq<Request>, j: nat, kid: KeyId): (r: Option<Request>)
    requires j <= |requests|
    ensures r.Some? ==> AsksCreation(r.value, kid)
  {
    if j == 0 then None
    else if Creates(suite, requests, j - 1, kid) then Some(requests[j - 1])
    else Creation(suite, requests, j - 1, kid)
  }

  ghost predicate Revoked(suite: Suite, requests: seq<Request>, j: nat, kid: KeyId)
    requires j <= |requests|
  {
    exists i :: 0 <= i < j && Revokes(suite, requests, i, kid)
  }

  /** The material of an AES key's versions in order: what its creation drew, then what each rotation drew. */
  ghost function Materials(suite: Suite, requests: seq<Request>, j: nat, kid: KeyId): seq<Bytes>
    requires j <= |requests|
  {
    if j == 0 then []
    else Materials(suite, requests, j - 1, kid) + Drawn(suite, requests, j - 1, kid)
  }

  ghost function Drawn(suite: Suite, requests: seq<Request>, i: nat, kid: KeyId): seq<Bytes>
    requires i < |requests|
  {
    if Rotates(suite, requests, i, kid) then [requests[i].use.key.material]
    else if Creates(suite, requests, i, kid) && requests[i].use.key.CreateAes? then [requests[i].use.key.material]
    else []
  }

  ghost function Rotations(suite: Suite, requests: seq<Request>, j: nat, kid: KeyId): nat
    requires j <= |requests|
  {
    if j == 0 then 0
    else Rotations(suite, requests, j - 1, kid) + (if Rotates(suite, requests, j - 1, kid) then 1 else 0)
  }

  function MaterialsOf(key: Key): seq<Bytes> {
    if key.SigningKey? then [] else seq(|key.versions|, i requires 0 <= i < |key.versions| => key.versions[i].material)
  }

  function MaterialsIn(ring: Keyring, kid: KeyId): seq<Bytes> {
    if kid in ring then MaterialsOf(ring[kid]) else []
  }

  lemma MaterialsRotated(key: Key, material: Bytes)
    requires key.AesKey?
    ensures MaterialsOf(Rotated(key, material)) == MaterialsOf(key) + [material]
  {
  }

  lemma MaterialsIssued(key: Key, box: Box, plaintext: Bytes)
    requires key.AesKey?
    ensures MaterialsOf(Issue(key, box, plaintext)) == MaterialsOf(key)
  {
  }

  /** What one call does to one key. */
  lemma KeyStepFacts(suite: Suite, unlocked: bool, ring: Keyring, signed: set<Signature>, email: string, call: KeyCall,
    now: Time, kid: KeyId)
    ensures var (ring', _, response) := KeyStep(suite, unlocked, ring, signed, email, call, now);
            var mine := email == kid.owner;
            var creates := mine && (call.CreateAes? || call.CreateSigning?) && call.name == kid.name
              && response.KeyInfo?;
            var rotates := mine && call.Rotate? && call.name == kid.name && response.KeyInfo?;
            && (kid in ring' <==> kid in ring || creates)
            && (creates && call.CreateAes? ==> kid !in ring && ring'[kid] == NewAesKey(call.material, now))
            && (creates && call.CreateSigning? ==> kid !in ring && ring'[kid] == NewSigningKey(call.seed, now))
            && (kid in ring ==> Successor(ring[kid], ring'[kid]))
            && (kid in ring ==>
                  (ring'[kid].revoked <==>
                    ring[kid].revoked || (mine && call == KeyCall.Revoke(kid.name) && response == Done)))
            && (rotates ==> kid in ring && ring[kid].AesKey? && ring'[kid] == Rotated(ring[kid], call.material))
            && (kid in ring && !rotates ==> MaterialsOf(ring'[kid]) == MaterialsOf(ring[kid]))
  {
    hide PayloadAad, Envelope.Print, Envelope.Parse, Base64.B64d, Base64.B64e, Validation.ValidKeyName;
    if call.Encrypt? && email == kid.owner && call.name == kid.name && kid in ring && ring[kid].AesKey?
      && Base64.B64d(call.plaintext64).Some?
    {
      var plaintext := Base64.B64d(call.plaintext64).value;
      MaterialsIssued(ring[kid], SealWith(suite, ring[kid], kid, plaintext, call.nonce), plaintext);
    }
    hide MaterialsOf, SealWith;
  }

  /** The same kind of key with the same creation time and the same seed. */
  predicate Successor(key: Key, later: Key) {
    && key.AesKey? == later.AesKey? && key.createdAt == later.createdAt
    && (key.SigningKey? ==> key.seed == later.seed)
  }

  lemma RingStep(suite: Suite, requests: seq<Request>, i: nat, kid: KeyId)
    requires i < |requests|
    ensures var ring, ring' := Before(suite, requests, i).ring, Before(suite, requests, i + 1).ring;
            && (kid in ring' <==> kid in ring || Creates(suite, requests, i, kid))
            && (Creates(suite, requests, i, kid) ==> kid !in ring && ring'[kid] == Newborn(requests[i]))
            && (kid in ring ==> Successor(ring[kid], ring'[kid]))
            && (kid in ring ==> (ring'[kid].revoked <==> ring[kid].revoked || Revokes(suite, requests, i, kid)))
            && (Rotates(suite, requests, i, kid) ==>
                  kid in ring && ring[kid].AesKey? && ring'[kid] == Rotated(ring[kid], requests[i].use.key.material))
            && (kid in ring && !Rotates(suite, requests, i, kid) ==> MaterialsOf(ring'[kid]) == MaterialsOf(ring[kid]))
  {
    OneStep(suite, requests, i);
    hide Before, KvStep, KeyStep, VaultStep, Audited, MaterialsOf;
    var s, request := Before(suite, requests, i), requests[i];
    if request.As? && request.use.Keys? {
      KeyStepFacts(suite, s.core.unlocked, s.ring, s.signed, request.email, request.use.key, request.now, kid);
    }
  }

  /** The key that a creation request asks for. */
  function Newborn(request: Request): Key
    requires request.As? && request.use.Keys? && (request.use.key.CreateAes? || request.use.key.CreateSigning?)
  {
    if request.use.key.CreateAes? then NewAesKey(request.use.key.material, request.now)
    else NewSigningKey(request.use.key.seed, request.now)
  }

  /** The keys are exactly the created ones, each of the kind, time and seed of its one creation. */
  lemma {:induction false} KeysExactly(suite: Suite, requests: seq<Request>, j: nat, kid: KeyId)
    requires j <= |requests|
    ensures kid in Before(suite, requests, j).ring <==> Creation(suite, requests, j, kid).Some?
    ensures kid in Before(suite, requests, j).ring ==>
      Successor(Newborn(Creation(suite, requests, j, kid).value), Before(suite, requests, j).ring[kid])
  {
    hide Before, Creates, Rotates, Revokes, MaterialsOf;
    if j == 0 {
      AtStart(suite, requests);
    } else {
      KeysExactly(suite, requests, j - 1, kid);
      RingStep(suite, requests, j - 1, kid);
      CreationAsks(suite, requests, j - 1, kid);
    }
  }

  lemma CreationAsks(suite: Suite, requests: seq<Request>, i: nat, kid: KeyId)
    requires i < |requests|
    ensures Creates(suite, requests, i, kid) ==> AsksCreation(requests[i], kid)
  {
  }

  lemma {:induction false} RevokedExactly(suite: Suite, requests: seq<Request>, j: nat, kid: KeyId)
    requires j <= |requests|
    ensures kid in Before(suite, requests, j).ring ==>
      (Before(suite, requests, j).ring[kid].revoked <==> Revoked(suite, requests, j, kid))
    ensures Revoked(suite, requests, j, kid) ==> kid in Before(suite, requests, j).ring
  {
    hide Before, Rotates, MaterialsOf;
    if j == 0 {
      AtStart(suite, requests);
    } else {
      RevokedExactly(suite, requests, j - 1, kid);
      RingStep(suite, requests, j - 1, kid);
      if Revokes(suite, requests, j - 1, kid) {
        RevocationIsOfAKey(suite, requests, j - 1, kid);
      }
      CreationAsks(suite, requests, j - 1, kid);
    }
  }

  /** `revoke` succeeds on a key that exists and is not revoked. */
  lemma RevocationIsOfAKey(suite: Suite, requests: seq<Request>, i: nat, kid: KeyId)
    requires i < |requests| && Revokes(suite, requests, i, kid)
    ensures kid in Before(suite, requests, i).ring && !Before(suite, requests, i).ring[kid].revoked
  {
    hide Before, Audited;
  }

  lemma {:induction false} MaterialsExactly(suite: Suite, requests: seq<Request>, j: nat, kid: KeyId)
    requires j <= |requests|
    ensures MaterialsIn(Before(suite, requests, j).ring, kid) == Materials(suite, requests, j, kid)
  {
    hide Before, Drawn, MaterialsIn;
    if j == 0 {
      AtStart(suite, requests);
      NoMaterials(kid);
    } else {
      MaterialsExactly(suite, requests, j - 1, kid);
      MaterialsStep(suite, requests, j - 1, kid);
    }
  }

  lemma NoMaterials(kid: KeyId)
    ensures MaterialsIn(map[], kid) == []
  {
  }

  lemma MaterialsStep(suite: Suite, requests: seq<Request>, i: nat, kid: KeyId)
    requires i < |requests|
    ensures MaterialsIn(Before(suite, requests, i + 1).ring, kid) ==
      MaterialsIn(Before(suite, requests, i).ring, kid) + Drawn(suite, requests, i, kid)
  {
    hide Before, MaterialsOf;
    RingStep(suite, requests, i, kid);
    var ring := Before(suite, requests, i).ring;
    if Rotates(suite, requests, i, kid) {
      MaterialsRotated(ring[kid], requests[i].use.key.material);
    } else if Creates(suite, requests, i, kid) {
      NewbornMaterials(requests[i]);
    }
  }

  lemma NewbornMaterials(request: Request)
    requires request.As? && request.use.Keys? && (request.use.key.CreateAes? || request.use.key.CreateSigning?)
    ensures MaterialsOf(Newborn(request)) == if request.use.key.CreateAes? then [request.use.key.material] else []
  {
  }

  /** An AES key has one version more than it was rotated. */
  lemma {:induction false} VersionsAreRotations(suite: Suite, requests: seq<Request>, j: nat, kid: KeyId)
    requires j <= |requests|
    ensures var ring := Before(suite, requests, j).ring;
            if kid in ring && ring[kid].AesKey? then
              |ring[kid].versions| == 1 + Rotations(suite, requests, j, kid)
            else Rotations(suite, requests, j, kid) == 0
  {
    hide Before;
    if j == 0 {
      AtStart(suite, requests);
    } else {
      VersionsAreRotations(suite, requests, j - 1, kid);
      RingStep(suite, requests, j - 1, kid);
      var ring, ring' := Before(suite, requests, j - 1).ring, Before(suite, requests, j).ring;
      if kid in ring {
        CountsOfMaterials(ring[kid]);
      }
      if kid in ring' {
        CountsOfMaterials(ring'[kid]);
      }
      hide MaterialsOf, Answer;
    }
  }

  lemma CountsOfMaterials(key: Key)
    ensures |MaterialsOf(key)| == if key.AesKey? then |key.versions| else 0
  {
  }

  /** An answered rotation appends one version with the material it drew, which has issued nothing yet. */
  lemma RotationAddsVersion(suite: Suite, requests: seq<Request>, i: nat, kid: KeyId)
    requires i < |requests| && Rotates(suite, requests, i, kid)
    ensures var ring, ring' := Before(suite, requests, i).ring, Before(suite, requests, i + 1).ring;
            && kid in ring && ring[kid].AesKey? && kid in ring' && ring'[kid].AesKey?
            && ring'[kid].versions == ring[kid].versions + [KeyVersion(requests[i].use.key.material, map[])]
            && Answer(suite, requests, i).info.currentVersion == |ring[kid].versions| + 1
  {
    RingStep(suite, requests, i, kid);
    hide Before, Audited;
  }
}
