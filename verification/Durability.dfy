/** What envelopes are for: they can always be opened again by their owner, and by nothing else. */
module Durability {
  import opened Basics
  import opened Base64
  import opened Validation
  import opened Contexts
  import opened Crypto
  import opened KeyringModel
  import opened System
  import opened Lineage
  import Envelope

  /** What `encrypt` answers is backed by the box that its version now remembers. */
  lemma EncryptIssues(suite: Suite, unlocked: bool, ring: Keyring, kid: KeyId, plaintext64: string, nonce: Nonce)
    requires KeyringModel.Encrypt(suite, unlocked, ring, kid, plaintext64, nonce).1.Ok?
    ensures B64d(plaintext64).Some? && kid in ring && ring[kid].AesKey?
    ensures var (ring', r) := KeyringModel.Encrypt(suite, unlocked, ring, kid, plaintext64, nonce);
            var plaintext := B64d(plaintext64).value;
            var n := |ring[kid].versions|;
            var box := SealWith(suite, ring[kid], kid, plaintext, nonce);
            && HoldsBox(ring', kid, n, box, plaintext)
            && ring'[kid].versions[n - 1].material == box.key
            && |box.body| == |plaintext| + 16
            && r.value == Envelope.Print(n, kid.name, nonce + box.body)
  {
    hide PayloadAad, Envelope.Print;
  }

  /** `decrypt` of a printed envelope is decided by the lock, the revocation mark and the box alone. */
  lemma DecryptPrinted(unlocked: bool, ring: Keyring, kid: KeyId, v: nat, nonce: Nonce, body: Bytes)
    requires ValidKeyName(kid.name) && |body| >= 16
    requires kid in ring && ring[kid].AesKey? && 1 <= v <= |ring[kid].versions|
    requires Box(ring[kid].versions[v - 1].material, nonce, body) in ring[kid].versions[v - 1].issued
    ensures KeyringModel.Decrypt(unlocked, ring, kid.owner, Envelope.Print(v, kid.name, nonce + body)) ==
      if !unlocked then Err(VaultLocked)
      else if ring[kid].revoked then Err(KeyNotFound)
      else Ok(B64e(ring[kid].versions[v - 1].issued[Box(ring[kid].versions[v - 1].material, nonce, body)]))
  {
    hide ValidKeyName, Envelope.Print, Envelope.Parse;
    Envelope.RoundTrip(v, kid.name, nonce + body);
    assert (nonce + body)[..12] == nonce && (nonce + body)[12..] == body;
  }

  /** The request asks `email`'s key `name` to encrypt. */
  predicate AsksEncrypt(request: Request, kid: KeyId, plaintext64: string) {
    && request.As? && request.email == kid.owner && request.use.Keys? && request.use.key.Encrypt?
    && request.use.key.name == kid.name && request.use.key.plaintext64 == plaintext64
  }

  predicate AsksDecrypt(request: Request, email: string, envelope: string) {
    request.As? && request.email == email && request.use == Keys(KeyCall.Decrypt(envelope))
  }

  lemma EncryptStep(suite: Suite, s: State, request: Request, kid: KeyId, plaintext64: string, envelope: string)
    returns (v: nat, box: Box, plaintext: Bytes)
    requires AsksEncrypt(request, kid, plaintext64) && Step(suite, s, request).1 == Text(envelope)
    ensures kid in s.ring && s.ring[kid].AesKey? && v == |s.ring[kid].versions|
    ensures B64d(plaintext64) == Some(plaintext) && |box.body| == |plaintext| + 16
    ensures HoldsBox(Step(suite, s, request).0.ring, kid, v, box, plaintext)
    ensures Step(suite, s, request).0.ring[kid].versions[v - 1].material == box.key
    ensures envelope == Envelope.Print(v, kid.name, box.nonce + box.body)
  {
    hide B64d, Envelope.Print, PayloadAad, Audited, HoldsBox;
    EncryptIssues(suite, s.core.unlocked, s.ring, kid, plaintext64, request.use.key.nonce);
    plaintext := B64d(plaintext64).value;
    v := |s.ring[kid].versions|;
    box := SealWith(suite, s.ring[kid], kid, plaintext, request.use.key.nonce);
  }

  lemma DecryptStep(suite: Suite, s: State, request: Request, kid: KeyId, v: nat, box: Box, plaintext: Bytes)
    requires AsksDecrypt(request, kid.owner, Envelope.Print(v, kid.name, box.nonce + box.body))
    requires HoldsBox(s.ring, kid, v, box, plaintext) && s.ring[kid].versions[v - 1].material == box.key
    requires ValidKeyName(kid.name) && |box.body| >= 16
    ensures Step(suite, s, request).1 ==
      if !s.core.unlocked then Failed(VaultLocked)
      else if s.ring[kid].revoked then Failed(KeyNotFound)
      else Text(B64e(plaintext))
  {
    hide Envelope.Print, Envelope.Parse, PayloadAad, Audited, ValidKeyName, B64e;
    DecryptPrinted(s.core.unlocked, s.ring, kid, v, box.nonce, box.body);
  }

  /**
   Any envelope ever returned by `encrypt` decrypts for the same user to the same bytes at every later moment
   when the vault is unlocked and the key is not revoked, whatever happened in between.
   */
  lemma EnvelopesStayReadable(suite: Suite, requests: seq<Request>, i: nat, j: nat, kid: KeyId, plaintext64: string,
    envelope: string)
    requires i < j < |requests|
    requires AsksEncrypt(requests[i], kid, plaintext64) && Answer(suite, requests, i) == Text(envelope)
    requires AsksDecrypt(requests[j], kid.owner, envelope)
    ensures B64d(plaintext64).Some? && kid in Before(suite, requests, j).ring
    ensures Answer(suite, requests, j) ==
      if !Before(suite, requests, j).core.unlocked then Failed(VaultLocked)
      else if Before(suite, requests, j).ring[kid].revoked then Failed(KeyNotFound)
      else Text(B64e(B64d(plaintext64).value))
  {
    var t := Before(suite, requests, j);
    AlwaysGenuine(suite, requests, j);
    OneStep(suite, requests, i);
    KeysOnlyGrow(suite, requests, i + 1, j);
    hide Genuine, Before, Run, Step, Envelope.Print, ValidKeyName;
    var v, box, plaintext := EncryptStep(suite, Before(suite, requests, i), requests[i], kid, plaintext64, envelope);
    HeldLater(Before(suite, requests, i + 1).ring, t.ring, kid, v, box, plaintext);
    GenuineNames(suite, t.ring, kid);
    DecryptStep(suite, t, requests[j], kid, v, box, plaintext);
  }

  lemma HeldLater(ring: Keyring, ring': Keyring, kid: KeyId, v: nat, box: Box, plaintext: Bytes)
    requires HoldsBox(ring, kid, v, box, plaintext) && Preserved(ring, ring')
    ensures HoldsBox(ring', kid, v, box, plaintext)
    ensures ring'[kid].versions[v - 1].material == ring[kid].versions[v - 1].material
  {
    assert Descends(ring[kid], ring'[kid]);
    assert DescendsVersion(ring[kid].versions[v - 1], ring'[kid].versions[v - 1]);
  }

  /** Request i was an encryption under `kid` that produced this envelope from these bytes. */
  ghost predicate Encrypted(suite: Suite, requests: seq<Request>, i: nat, kid: KeyId, envelope: string,
    plaintext: Bytes)
  {
    && i < |requests| && requests[i].As? && requests[i].use.Keys? && requests[i].use.key.Encrypt?
    && AsksEncrypt(requests[i], kid, requests[i].use.key.plaintext64)
    && B64d(requests[i].use.key.plaintext64) == Some(plaintext)
    && Answer(suite, requests, i) == Text(envelope)
  }

  /** What an encryption answered is held, at every later moment, by the version that its envelope names. */
  lemma EncryptedIsHeld(suite: Suite, requests: seq<Request>, k: nat, j: nat, kid: KeyId, envelope: string,
    plaintext: Bytes)
    returns (v: nat, box: Box)
    requires k < j <= |requests| && Encrypted(suite, requests, k, kid, envelope, plaintext)
    ensures HoldsBox(Before(suite, requests, j).ring, kid, v, box, plaintext) && ValidKeyName(kid.name)
    ensures Before(suite, requests, j).ring[kid].versions[v - 1].material == box.key && |box.body| >= 16
    ensures envelope == Envelope.Print(v, kid.name, box.nonce + box.body)
  {
    AlwaysGenuine(suite, requests, j);
    OneStep(suite, requests, k);
    KeysOnlyGrow(suite, requests, k + 1, j);
    hide Genuine, Preserved, Before, Run, Step, Envelope.Print, ValidKeyName, B64d;
    var plaintext': Bytes;
    v, box, plaintext' := EncryptStep(suite, Before(suite, requests, k), requests[k], kid,
                                      requests[k].use.key.plaintext64, envelope);
    HeldLater(Before(suite, requests, k + 1).ring, Before(suite, requests, j).ring, kid, v, box, plaintext');
    GenuineNames(suite, Before(suite, requests, j).ring, kid);
  }

  /** A box that a step adds to a key comes from an encryption in that very step. */
  lemma NewBoxesAreEncrypted(suite: Suite, unlocked: bool, ring: Keyring, signed: set<Signature>, email: string,
    call: KeyCall, now: Time,
    kid: KeyId, v: nat, box: Box, plaintext: Bytes)
    requires HoldsBox(KeyStep(suite, unlocked, ring, signed, email, call, now).0, kid, v, box, plaintext)
    requires !HoldsBox(ring, kid, v, box, plaintext)
    ensures kid.owner == email && call.Encrypt? && call.name == kid.name && B64d(call.plaintext64) == Some(plaintext)
    ensures KeyStep(suite, unlocked, ring, signed, email, call, now).2 ==
      Text(Envelope.Print(v, kid.name, box.nonce + box.body))
  {
    hide PayloadAad, Envelope.Print, B64d, ValidKeyName;
  }

  lemma {:induction false} BoxesAreEncrypted(suite: Suite, requests: seq<Request>, n: nat, kid: KeyId, v: nat, box: Box,
    plaintext: Bytes)
    returns (i: nat)
    requires n <= |requests| && HoldsBox(Before(suite, requests, n).ring, kid, v, box, plaintext)
    ensures i < n && Encrypted(suite, requests, i, kid, Envelope.Print(v, kid.name, box.nonce + box.body), plaintext)
  {
    i := n - 1;
    OneStep(suite, requests, i);
    var s := Before(suite, requests, i);
    hide Before, Run, PayloadAad, Envelope.Print, B64d, KvStep, KeyStep, VaultStep, Audited;
    if HoldsBox(s.ring, kid, v, box, plaintext) {
      i := BoxesAreEncrypted(suite, requests, i, kid, v, box, plaintext);
    } else {
      var request := requests[i];
      NewBoxesAreEncrypted(suite, s.core.unlocked, s.ring, s.signed, request.email, request.use.key, request.now, kid,
        v, box, plaintext);
    }
  }

  /**
   If `decrypt` returns bytes to a user, an earlier `encrypt` by that same user under that name and version
   produced exactly that nonce and ciphertext from those bytes.
   */
  lemma DecryptedWasEncrypted(suite: Suite, requests: seq<Request>, j: nat, envelope: string, text: string)
    returns (i: nat, plaintext: Bytes)
    requires j < |requests| && requests[j].As? && requests[j].use == Keys(KeyCall.Decrypt(envelope))
    requires Answer(suite, requests, j) == Text(text)
    ensures Envelope.Parse(envelope).Ok?
    ensures var p := Envelope.Parse(envelope).value;
            i < j && Encrypted(suite, requests, i, KeyId(requests[j].email, p.name),
              Envelope.Print(p.version, p.name, p.blob), plaintext)
    ensures text == B64e(plaintext)
  {
    hide Before, Run, PayloadAad, Envelope.Print, B64d, B64e;
    var p := Envelope.Parse(envelope).value;
    var kid := KeyId(requests[j].email, p.name);
    var version := Before(suite, requests, j).ring[kid].versions[p.version - 1];
    var box := Box(version.material, p.blob[..12], p.blob[12..]);
    plaintext := version.issued[box];
    assert box.nonce + box.body == p.blob;
    i := BoxesAreEncrypted(suite, requests, j, kid, p.version, box, plaintext);
  }
}
