/** Signatures verify for ever, and only what was signed verifies. */
module SignTheorems {
  import opened Basics
  import opened Base64
  import opened Contexts
  import opened Crypto
  import opened KeyringModel
  import opened System
  import opened Lineage
  import Envelope
  import Validation

  predicate AsksSign(request: Request, kid: KeyId) {
    request.As? && request.email == kid.owner && request.use.Keys? && request.use.key.Sign?
      && request.use.key.name == kid.name
  }

  predicate AsksVerify(request: Request, kid: KeyId) {
    request.As? && request.email == kid.owner && request.use.Keys? && request.use.key.Verify?
      && request.use.key.name == kid.name
  }

  lemma StepKeepsSignatures(suite: Suite, s: State, request: Request)
    ensures s.signed <= Step(suite, s, request).0.signed
  {
    hide KvStep, Audited, VaultStep, Validation.ValidKeyName, Envelope.Parse, PayloadAad, B64e;
  }

  lemma {:induction false} SignaturesStay(suite: Suite, requests: seq<Request>, i: nat, j: nat)
    requires i <= j <= |requests|
    ensures Before(suite, requests, i).signed <= Before(suite, requests, j).signed
  {
    hide Before, Step;
    if i < j {
      SignaturesStay(suite, requests, i, j - 1);
      OneStep(suite, requests, j - 1);
      StepKeepsSignatures(suite, Before(suite, requests, j - 1), requests[j - 1]);
    }
  }

  lemma SignStep(suite: Suite, s: State, request: Request, kid: KeyId, signature64: string)
    returns (signature: Signature)
    requires AsksSign(request, kid) && Step(suite, s, request).1 == Text(signature64)
    ensures B64d(request.use.key.message64) == Some(signature.message) && signature64 == B64e(signature.bytes)
    ensures kid in s.ring && s.ring[kid].SigningKey? && signature.public == suite.public(s.ring[kid].seed)
    ensures signature in Step(suite, s, request).0.signed
  {
    hide B64d, B64e, Audited;
    var message := B64d(request.use.key.message64).value;
    signature := Signature(suite.public(s.ring[kid].seed), message, suite.sign(s.ring[kid].seed, message));
  }

  lemma VerifyStep(suite: Suite, s: State, request: Request, kid: KeyId, signature: Signature)
    requires AsksVerify(request, kid) && request.use.key.signature64 == B64e(signature.bytes)
    requires B64d(request.use.key.message64) == Some(signature.message)
    requires request.use.key.isDigest ==> |signature.message| == 32
    requires request.use.key.algorithm in {None, Some(""), Some("ED25519")}
    requires kid in s.ring && s.ring[kid].SigningKey? && signature.public == suite.public(s.ring[kid].seed)
    requires signature in s.signed
    ensures Step(suite, s, request).1 ==
      if !s.core.unlocked then Failed(VaultLocked)
      else if s.ring[kid].revoked then Failed(KeyNotFound)
      else Validity(true)
  {
    hide B64d, B64e, Audited;
    RoundTrip(signature.bytes);
  }

  /** A signature verifies under its key at every later moment, until the vault locks or the key is revoked. */
  lemma SignaturesStayValid(suite: Suite, requests: seq<Request>, i: nat, j: nat, kid: KeyId, signature64: string)
    requires i < j < |requests|
    requires AsksSign(requests[i], kid) && Answer(suite, requests, i) == Text(signature64)
    requires AsksVerify(requests[j], kid) && requests[j].use.key.signature64 == signature64
    requires B64d(requests[j].use.key.message64) == B64d(requests[i].use.key.message64)
    requires requests[j].use.key.isDigest ==>
      B64d(requests[j].use.key.message64).Some? && |B64d(requests[j].use.key.message64).value| == 32
    requires requests[j].use.key.algorithm in {None, Some(""), Some("ED25519")}
    ensures kid in Before(suite, requests, j).ring
    ensures Answer(suite, requests, j) ==
      if !Before(suite, requests, j).core.unlocked then Failed(VaultLocked)
      else if Before(suite, requests, j).ring[kid].revoked then Failed(KeyNotFound)
      else Validity(true)
  {
    OneStep(suite, requests, i);
    KeysOnlyGrow(suite, requests, i, j);
    SignaturesStay(suite, requests, i + 1, j);
    hide Before, Step, B64d, B64e;
    var s, t := Before(suite, requests, i), Before(suite, requests, j);
    var signature := SignStep(suite, s, requests[i], kid, signature64);
    assert Descends(s.ring[kid], t.ring[kid]);
    VerifyStep(suite, t, requests[j], kid, signature);
  }

  lemma ValidMeansSigned(suite: Suite, s: State, request: Request, kid: KeyId) returns (signature: Signature)
    requires AsksVerify(request, kid) && Step(suite, s, request).1 == Validity(true)
    ensures signature in s.signed && kid in s.ring && s.ring[kid].SigningKey?
    ensures signature.public == suite.public(s.ring[kid].seed)
    ensures B64d(request.use.key.message64) == Some(signature.message)
    ensures B64d(request.use.key.signature64) == Some(signature.bytes)
  {
    hide B64d, B64e, Audited;
    signature := Signature(suite.public(s.ring[kid].seed), B64d(request.use.key.message64).value,
                           B64d(request.use.key.signature64).value);
  }

  lemma NewSignature(suite: Suite, s: State, request: Request, signature: Signature)
    requires signature in Step(suite, s, request).0.signed && signature !in s.signed
    ensures request.As? && request.use.Keys? && request.use.key.Sign?
    ensures var kid := KeyId(request.email, request.use.key.name);
            && kid in s.ring && s.ring[kid].SigningKey? && signature.public == suite.public(s.ring[kid].seed)
            && B64d(request.use.key.message64) == Some(signature.message)
            && Step(suite, s, request).1 == Text(B64e(signature.bytes))
  {
    hide KvStep, Audited, VaultStep, Validation.ValidKeyName, Envelope.Parse, PayloadAad, B64d, B64e;
  }

  /** Every recorded signature was made by an earlier sign request. */
  lemma {:induction false} SignedEarlier(suite: Suite, requests: seq<Request>, n: nat, signature: Signature)
    returns (i: nat, kid: KeyId)
    requires n <= |requests| && signature in Before(suite, requests, n).signed
    ensures i < n && AsksSign(requests[i], kid) && B64d(requests[i].use.key.message64) == Some(signature.message)
    ensures Answer(suite, requests, i) == Text(B64e(signature.bytes))
    ensures kid in Before(suite, requests, i).ring && Before(suite, requests, i).ring[kid].SigningKey?
    ensures suite.public(Before(suite, requests, i).ring[kid].seed) == signature.public
  {
    i := n - 1;
    OneStep(suite, requests, i);
    hide Step, B64d, B64e;
    if signature in Before(suite, requests, i).signed {
      hide Before;
      i, kid := SignedEarlier(suite, requests, i, signature);
    } else {
      hide Before;
      NewSignature(suite, Before(suite, requests, i), requests[i], signature);
      kid := KeyId(requests[i].email, requests[i].use.key.name);
    }
  }

  /** No two signing keys share a public key: Ed25519 key generation never repeated itself. */
  ghost predicate DistinctPublics(suite: Suite, ring: Keyring) {
    forall k, l | k in ring && l in ring && ring[k].SigningKey? && ring[l].SigningKey?
      && suite.public(ring[k].seed) == suite.public(ring[l].seed) :: k == l
  }

  /** `verify` answers true only for bytes that this very key really signed, with this very signature. */
  lemma OnlySignedVerifies(suite: Suite, requests: seq<Request>, j: nat, kid: KeyId) returns (i: nat)
    requires j < |requests| && AsksVerify(requests[j], kid) && Answer(suite, requests, j) == Validity(true)
    requires DistinctPublics(suite, Before(suite, requests, j).ring)
    ensures i < j && AsksSign(requests[i], kid)
    ensures B64d(requests[i].use.key.message64).Some?
      && B64d(requests[i].use.key.message64) == B64d(requests[j].use.key.message64)
    ensures B64d(requests[j].use.key.signature64).Some?
    ensures Answer(suite, requests, i) == Text(B64e(B64d(requests[j].use.key.signature64).value))
  {
    var t := Before(suite, requests, j);
    hide Step, B64d, B64e;
    var signature := ValidMeansSigned(suite, t, requests[j], kid);
    var signer: KeyId;
    i, signer := SignedEarlier(suite, requests, j, signature);
    KeysOnlyGrow(suite, requests, i, j);
    assert Descends(Before(suite, requests, i).ring[signer], t.ring[signer]);
    assert signer == kid;
  }
}
