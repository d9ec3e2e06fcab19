/** What every step keeps of every key: its kind, its versions, everything it ever issued, and its revocation. */
module Lineage {
  import opened Basics
  import Base64
  import opened Validation
  import opened Contexts
  import opened Crypto
  import opened KeyringModel
  import opened System

  /** Every issued box really seals what it is remembered to hold, and every key has a valid name. */
  ghost predicate Genuine(suite: Suite, ring: Keyring) {
    && (forall kid | kid in ring :: ValidKeyName(kid.name))
    && forall kid, v: nat, box, plaintext | HoldsBox(ring, kid, v, box, plaintext) ::
        box == Box(ring[kid].versions[v - 1].material, box.nonce,
                   suite.seal(ring[kid].versions[v - 1].material, box.nonce, plaintext, PayloadAad(kid, v)))
  }

  /** Version v of the key issued `box` for `plaintext`. */
  ghost predicate HoldsBox(ring: Keyring, kid: KeyId, v: nat, box: Box, plaintext: Bytes) {
    && kid in ring && ring[kid].AesKey? && 1 <= v <= |ring[kid].versions|
    && box in ring[kid].versions[v - 1].issued && ring[kid].versions[v - 1].issued[box] == plaintext
  }

  /** `later` is the same key at a later time. */
  ghost predicate Descends(key: Key, later: Key) {
    && key.createdAt == later.createdAt && (key.revoked ==> later.revoked)
    && (key.SigningKey? ==> later.SigningKey? && later.seed == key.seed)
    && (key.AesKey? ==> later.AesKey? && |key.versions| <= |later.versions|)
    && (key.AesKey? ==> forall v | 0 <= v < |key.versions| :: DescendsVersion(key.versions[v], later.versions[v]))
  }

  ghost predicate DescendsVersion(version: KeyVersion, later: KeyVersion) {
    && version.material == later.material
    && forall box | box in version.issued :: box in later.issued && later.issued[box] == version.issued[box]
  }

  ghost predicate Preserved(ring: Keyring, ring': Keyring) {
    forall kid | kid in ring :: kid in ring' && Descends(ring[kid], ring'[kid])
  }

  lemma DescendsTransitive(a: Key, b: Key, c: Key)
    requires Descends(a, b) && Descends(b, c)
    ensures Descends(a, c)
  {
    if a.AesKey? {
      forall v | 0 <= v < |a.versions|
        ensures DescendsVersion(a.versions[v], c.versions[v])
      {
        assert DescendsVersion(a.versions[v], b.versions[v]) && DescendsVersion(b.versions[v], c.versions[v]);
      }
    }
  }

  lemma IssueDescends(suite: Suite, ring: Keyring, kid: KeyId, plaintext: Bytes, nonce: Nonce)
    requires Genuine(suite, ring) && kid in ring && ring[kid].AesKey?
    ensures Descends(ring[kid], Issue(ring[kid], SealWith(suite, ring[kid], kid, plaintext, nonce), plaintext))
  {
    var key := ring[kid];
    var n := |key.versions|;
    var box := SealWith(suite, key, kid, plaintext, nonce);
    var key' := Issue(key, box, plaintext);
    var newest := key.versions[n - 1];
    if box in newest.issued {
      assert HoldsBox(ring, kid, n, box, newest.issued[box]);
    }
    assert DescendsVersion(newest, key'.versions[n - 1]);
  }

  lemma IssueIsGenuine(suite: Suite, ring: Keyring, kid: KeyId, plaintext: Bytes, nonce: Nonce)
    requires Genuine(suite, ring) && kid in ring && ring[kid].AesKey?
    ensures Genuine(suite, ring[kid := Issue(ring[kid], SealWith(suite, ring[kid], kid, plaintext, nonce), plaintext)])
  {
    var key := ring[kid];
    var box := SealWith(suite, key, kid, plaintext, nonce);
    var ring' := ring[kid := Issue(key, box, plaintext)];
    forall k, v: nat, b, p | HoldsBox(ring', k, v, b, p)
      ensures b == Box(ring'[k].versions[v - 1].material, b.nonce,
                       suite.seal(ring'[k].versions[v - 1].material, b.nonce, p, PayloadAad(k, v)))
    {
      if !(k == kid && v == |key.versions| && b == box) {
        assert HoldsBox(ring, k, v, b, p);
      }
    }
  }

  lemma RotationIsGenuine(suite: Suite, ring: Keyring, kid: KeyId, material: Bytes)
    requires Genuine(suite, ring) && kid in ring && ring[kid].AesKey?
    ensures Genuine(suite, ring[kid := Rotated(ring[kid], material)])
      && Descends(ring[kid], Rotated(ring[kid], material))
  {
    var ring' := ring[kid := Rotated(ring[kid], material)];
    forall k, v: nat, b, p | HoldsBox(ring', k, v, b, p)
      ensures b == Box(ring'[k].versions[v - 1].material, b.nonce,
                       suite.seal(ring'[k].versions[v - 1].material, b.nonce, p, PayloadAad(k, v)))
    {
      assert HoldsBox(ring, k, v, b, p);
    }
    forall v | 0 <= v < |ring[kid].versions|
      ensures DescendsVersion(ring[kid].versions[v], ring'[kid].versions[v])
    {
    }
  }

  lemma ReplacementIsGenuine(suite: Suite, ring: Keyring, kid: KeyId, key: Key)
    requires Genuine(suite, ring) && ValidKeyName(kid.name)
    requires key.SigningKey? || (|key.versions| == 1 && key.versions[0].issued == map[])
      || (kid in ring && ring[kid].AesKey? && key.versions == ring[kid].versions)
    ensures Genuine(suite, ring[kid := key])
  {
    var ring' := ring[kid := key];
    forall k, v: nat, b, p | HoldsBox(ring', k, v, b, p)
      ensures b == Box(ring'[k].versions[v - 1].material, b.nonce,
                       suite.seal(ring'[k].versions[v - 1].material, b.nonce, p, PayloadAad(k, v)))
    {
      assert HoldsBox(ring, k, v, b, p);
    }
  }

  lemma KeyStepPreserves(suite: Suite, unlocked: bool, ring: Keyring, signed: set<Signature>, email: string,
    call: KeyCall, now: Time)
    requires Genuine(suite, ring)
    ensures var ring' := KeyStep(suite, unlocked, ring, signed, email, call, now).0;
            Genuine(suite, ring') && Preserved(ring, ring')
  {
    hide Genuine, ValidKeyName, PayloadAad;
    var ring' := KeyStep(suite, unlocked, ring, signed, email, call, now).0;
    if ring' != ring {
      match call {
        case CreateAes(name, material, _) =>
          ReplacementIsGenuine(suite, ring, KeyId(email, name), NewAesKey(material, now));
        case CreateSigning(name, seed, _) =>
          ReplacementIsGenuine(suite, ring, KeyId(email, name), NewSigningKey(seed, now));
        case Rotate(name, material, _) => RotationIsGenuine(suite, ring, KeyId(email, name), material);
        case Revoke(name) =>
          var kid := KeyId(email, name);
          GenuineNames(suite, ring, kid);
          ReplacementIsGenuine(suite, ring, kid, ring[kid].(revoked := true));
        case Encrypt(name, plaintext64, nonce) =>
          var kid := KeyId(email, name);
          var plaintext := Base64.B64d(plaintext64).value;
          IssueDescends(suite, ring, kid, plaintext, nonce);
          IssueIsGenuine(suite, ring, kid, plaintext, nonce);
        case _ =>
      }
    }
  }

  lemma GenuineNames(suite: Suite, ring: Keyring, kid: KeyId)
    requires Genuine(suite, ring) && kid in ring
    ensures ValidKeyName(kid.name)
  {
  }

  lemma StepPreserves(suite: Suite, s: State, request: Request)
    requires Genuine(suite, s.ring)
    ensures Genuine(suite, Step(suite, s, request).0.ring) && Preserved(s.ring, Step(suite, s, request).0.ring)
  {
    hide Genuine, KvStep, KeyStep, VaultStep, Audited;
    if request.As? && request.use.Keys? {
      KeyStepPreserves(suite, s.core.unlocked, s.ring, s.signed, request.email, request.use.key, request.now);
    }
  }

  lemma {:induction false} AlwaysGenuine(suite: Suite, requests: seq<Request>, i: nat)
    requires i <= |requests|
    ensures Genuine(suite, Before(suite, requests, i).ring)
  {
    if i == 0 {
      assert Before(suite, requests, 0) == Start();
    } else {
      hide Genuine, Step, Run, Before;
      AlwaysGenuine(suite, requests, i - 1);
      OneStep(suite, requests, i - 1);
      StepPreserves(suite, Before(suite, requests, i - 1), requests[i - 1]);
    }
  }

  /** Between any two moments of a run every key only grows: same kind, same versions, nothing issued is forgotten. */
  lemma {:induction false} KeysOnlyGrow(suite: Suite, requests: seq<Request>, i: nat, j: nat)
    requires i <= j <= |requests|
    ensures Preserved(Before(suite, requests, i).ring, Before(suite, requests, j).ring)
  {
    hide Preserved, Genuine, Step, Run, Before;
    if i < j {
      KeysOnlyGrow(suite, requests, i, j - 1);
      AlwaysGenuine(suite, requests, j - 1);
      OneStep(suite, requests, j - 1);
      StepPreserves(suite, Before(suite, requests, j - 1), requests[j - 1]);
      PreservedTransitive(Before(suite, requests, i).ring, Before(suite, requests, j - 1).ring,
        Before(suite, requests, j).ring);
    } else {
      PreservedReflexive(Before(suite, requests, i).ring);
    }
  }

  lemma PreservedReflexive(ring: Keyring)
    ensures Preserved(ring, ring)
  {
  }

  lemma PreservedTransitive(a: Keyring, b: Keyring, c: Keyring)
    requires Preserved(a, b) && Preserved(b, c)
    ensures Preserved(a, c)
  {
    hide Descends;
    forall kid | kid in a ensures Descends(a[kid], c[kid]) {
      DescendsTransitive(a[kid], b[kid], c[kid]);
    }
  }
}
