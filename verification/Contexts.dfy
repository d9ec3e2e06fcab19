/** The associated data that binds every ciphertext to the place it was made for. */
module Contexts {
  import opened Text
  import opened Validation

  /** A named key: names are unique per owner, not globally. */
  datatype KeyId = KeyId(owner: string, name: string)

  predicate WellNamed(kid: KeyId) {
    ValidEmail(kid.owner) && ValidKeyName(kid.name)
  }

  const DEK_AAD := "mini-vault-dek-v1"

  function VersionTag(version: nat): string {
    "v" + Dec(version)
  }

  /** Wrapped key material; version 1 keeps the format used before rotation existed. */
  function KeyAad(kid: KeyId, version: nat): string {
    Join("key", ':', Join(kid.owner, ':', KeyTail(kid.name, version)))
  }

  function KeyTail(name: string, version: nat): string {
    if version == 1 then name else Join(name, ':', VersionTag(version))
  }

  function PayloadAad(kid: KeyId, version: nat): string {
    Join("transit", ':', Join(kid.owner, ':', Join(kid.name, ':', VersionTag(version))))
  }

  /** What a ciphertext may be bound to. A secret's associated data is its path alone. */
  datatype Context =
    | Dek
    | Wrapped(kid: KeyId, version: nat)
    | Payload(kid: KeyId, version: nat)
    | Secret(path: string)

  predicate WellFormed(c: Context) {
    match c
    case Dek => true
    case Wrapped(kid, v) => WellNamed(kid) && v >= 1
    case Payload(kid, v) => WellNamed(kid) && v >= 1
    case Secret(path) => "secret/" <= path
  }

  function Aad(c: Context): string {
    match c
    case Dek => DEK_AAD
    case Wrapped(kid, v) => KeyAad(kid, v)
    case Payload(kid, v) => PayloadAad(kid, v)
    case Secret(path) => path
  }

  /** The engine an associated-data string belongs to is visible in its first character. */
  function Engine(aad: string): char {
    if aad == "" then ' ' else aad[0]
  }

  lemma Engines(kid: KeyId, version: nat)
    ensures Engine(KeyAad(kid, version)) == 'k' && Engine(PayloadAad(kid, version)) == 't'
  {
  }

  lemma SecretEngine(email: string, path: string)
    requires Owns(email, path)
    ensures Engine(path) == 's'
  {
    assert path[..7] == "secret/";
  }

  lemma VersionTagInjective(v: nat, w: nat)
    requires VersionTag(v) == VersionTag(w)
    ensures v == w
  {
    assert VersionTag(v)[1..] == Dec(v) && VersionTag(w)[1..] == Dec(w);
    DecInjective(v, w);
  }

  lemma PayloadAadInjective(k: KeyId, v: nat, l: KeyId, w: nat)
    requires WellNamed(k) && WellNamed(l) && PayloadAad(k, v) == PayloadAad(l, w)
    ensures k == l && v == w
  {
    var kt, lt := Join(k.name, ':', VersionTag(v)), Join(l.name, ':', VersionTag(w));
    CutAtSeparator("transit", Join(k.owner, ':', kt), "transit", Join(l.owner, ':', lt), ':');
    CutAtSeparator(k.owner, kt, l.owner, lt, ':');
    CutAtSeparator(k.name, VersionTag(v), l.name, VersionTag(w), ':');
    VersionTagInjective(v, w);
  }

  lemma KeyTailInjective(m: string, v: nat, n: string, w: nat)
    requires ':' !in m && ':' !in n && KeyTail(m, v) == KeyTail(n, w)
    ensures m == n && v == w
  {
    assert v != 1 ==> KeyTail(m, v)[|m|] == ':';
    assert w != 1 ==> KeyTail(n, w)[|n|] == ':';
    if v != 1 && w != 1 {
      CutAtSeparator(m, VersionTag(v), n, VersionTag(w), ':');
      VersionTagInjective(v, w);
    }
  }

  lemma KeyAadInjective(k: KeyId, v: nat, l: KeyId, w: nat)
    requires WellNamed(k) && WellNamed(l) && KeyAad(k, v) == KeyAad(l, w)
    ensures k == l && v == w
  {
    var kt, lt := KeyTail(k.name, v), KeyTail(l.name, w);
    CutAtSeparator("key", Join(k.owner, ':', kt), "key", Join(l.owner, ':', lt), ':');
    CutAtSeparator(k.owner, kt, l.owner, lt, ':');
    KeyTailInjective(k.name, v, l.name, w);
  }

  /** Distinct contexts never share associated data, across all four kinds. */
  lemma AadInjective(c: Context, d: Context)
    requires WellFormed(c) && WellFormed(d) && Aad(c) == Aad(d)
    ensures c == d
  {
    assert Engine(Aad(c)) == Engine(Aad(d));
    match (c, d)
    case (Wrapped(k, v), Wrapped(l, w)) => KeyAadInjective(k, v, l, w);
    case (Payload(k, v), Payload(l, w)) => PayloadAadInjective(k, v, l, w);
    case _ =>
  }
}
