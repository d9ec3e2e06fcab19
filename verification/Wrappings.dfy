/** What can be opened as key material at all, whatever the rows of the tables say. */
module Wrappings {
  import opened Basics
  import opened Contexts
  import opened Crypto
  import opened KeyringModel

  /** The material of a version of a key; a signing key has one version. */
  function MaterialAt(key: Key, version: nat): Option<Bytes> {
    if key.SigningKey? then (if version == 1 then Some(key.seed) else None)
    else if 1 <= version <= |key.versions| then Some(key.versions[version - 1].material)
    else None
  }

  /** Whatever opens in the context of a key version is the material of that version of that key. */
  ghost predicate WrapsAgree(ring: Keyring, log: SealLog) {
    forall kid, v: nat, box | WellNamed(kid) && v >= 1 && box in At(log, KeyAad(kid, v)) ::
      kid in ring && MaterialAt(ring[kid], v) == Some(At(log, KeyAad(kid, v))[box])
  }

  /** No version of the key changed its material. */
  ghost predicate KeepsMaterial(key: Key, later: Key) {
    forall v: nat | MaterialAt(key, v).Some? :: MaterialAt(later, v) == MaterialAt(key, v)
  }

  lemma NoWrapsAgree()
    ensures WrapsAgree(map[], map[])
  {
    hide WellNamed, KeyAad;
  }

  lemma OpenedIsGenuine(ring: Keyring, log: SealLog, kid: KeyId, v: nat, box: Box)
    requires WrapsAgree(ring, log) && WellNamed(kid) && v >= 1 && box in At(log, KeyAad(kid, v))
    ensures kid in ring && MaterialAt(ring[kid], v) == Some(At(log, KeyAad(kid, v))[box])
  {
  }

  /** Sealing in other engines does not matter. */
  lemma SealingElsewhere(ring: Keyring, log: SealLog, log': SealLog, engine: char)
    requires WrapsAgree(ring, log) && TouchesOnly(log, log', {engine}) && engine != 'k'
    ensures WrapsAgree(ring, log')
  {
    forall kid, v: nat, box | WellNamed(kid) && v >= 1 && box in At(log', KeyAad(kid, v))
      ensures kid in ring && MaterialAt(ring[kid], v) == Some(At(log', KeyAad(kid, v))[box])
    {
      Engines(kid, v);
      assert At(log', KeyAad(kid, v)) == At(log, KeyAad(kid, v));
    }
  }

  /** A key that is replaced by a later state of itself. */
  lemma LaterKey(ring: Keyring, log: SealLog, kid: KeyId, later: Key)
    requires WrapsAgree(ring, log) && kid in ring && KeepsMaterial(ring[kid], later)
    ensures WrapsAgree(ring[kid := later], log)
  {
    hide KeyAad, WellNamed, MaterialAt;
    forall k, v: nat, box | WellNamed(k) && v >= 1 && box in At(log, KeyAad(k, v))
      ensures k in ring && MaterialAt(ring[kid := later][k], v) == Some(At(log, KeyAad(k, v))[box])
    {
      OpenedIsGenuine(ring, log, k, v, box);
    }
  }

  /** Material wrapped for a version that a key just got. */
  lemma NewMaterial(ring: Keyring, log: SealLog, log': SealLog, kid: KeyId, later: Key, v: nat, box: Box,
    material: Bytes)
    requires WrapsAgree(ring, log) && WellNamed(kid) && v >= 1 && log' == Record(log, KeyAad(kid, v), box, material)
    requires kid in ring ==> KeepsMaterial(ring[kid], later)
    requires MaterialAt(later, v) == Some(material)
    ensures WrapsAgree(ring[kid := later], log')
  {
    hide KeyAad, WellNamed, MaterialAt;
    forall k, n: nat, b | WellNamed(k) && n >= 1 && b in At(log', KeyAad(k, n))
      ensures k in ring[kid := later] && MaterialAt(ring[kid := later][k], n) == Some(At(log', KeyAad(k, n))[b])
    {
      if KeyAad(k, n) == KeyAad(kid, v) && b == box {
        KeyAadInjective(k, n, kid, v);
      } else {
        assert b in At(log, KeyAad(k, n)) && At(log', KeyAad(k, n))[b] == At(log, KeyAad(k, n))[b];
        OpenedIsGenuine(ring, log, k, n, b);
      }
    }
  }

  lemma RotationKeepsMaterial(key: Key, material: Bytes)
    requires key.AesKey?
    ensures KeepsMaterial(key, Rotated(key, material))
    ensures MaterialAt(Rotated(key, material), |key.versions| + 1) == Some(material)
  {
  }

  lemma IssuingKeepsMaterial(key: Key, box: Box, plaintext: Bytes)
    requires key.AesKey?
    ensures KeepsMaterial(key, Issue(key, box, plaintext))
  {
  }

  lemma RevocationKeepsMaterial(key: Key)
    ensures KeepsMaterial(key, key.(revoked := true))
  {
  }
}
