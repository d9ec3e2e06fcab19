/** How every transit call is answered, told from earlier requests and answers alone. */
module KeyAnswers {
  import opened Basics
  import opened Base64
  import opened Validation
  import opened Contexts
  import opened Crypto
  import opened KeyringModel
  import opened System
  import opened LockHistory
  import opened KeyHistory
  import Durability
  import Envelope
  import Formats
  import Lineage
  import SignTheorems
  import Text

  /** The refusals that all calls on a named key share, in their order. */
  ghost function Refusal(suite: Suite, requests: seq<Request>, j: nat, kid: KeyId): (r: Option<Error>)
    requires j <= |requests|
    ensures r == None ==> Creation(suite, requests, j, kid).Some?
  {
    if !IsOpen(suite, requests, j) then Some(VaultLocked)
    else if Creation(suite, requests, j, kid) == None then Some(PermissionDenied)
    else if Revoked(suite, requests, j, kid) then Some(KeyNotFound)
    else None
  }

  /** A key that is not refused, in terms of its creation and of its versions' material. */
  ghost predicate Known(key: Key, creation: Request, materials: seq<Bytes>)
    requires creation.As? && creation.use.Keys? && (creation.use.key.CreateAes? || creation.use.key.CreateSigning?)
  {
    && !key.revoked && key.createdAt == creation.now
    && (creation.use.key.CreateAes? ==>
          key.AesKey? && MaterialsOf(key) == materials && |key.versions| == |materials| >= 1)
    && (creation.use.key.CreateSigning? ==> key.SigningKey? && key.seed == creation.use.key.seed)
  }

  lemma FindAnswered(suite: Suite, requests: seq<Request>, j: nat, kid: KeyId)
    requires j <= |requests|
    ensures var s := Before(suite, requests, j);
            match Refusal(suite, requests, j, kid)
            case Some(e) => Find(s.core.unlocked, s.ring, kid, None) == Err(e)
              && (s.core.unlocked <==> e != VaultLocked)
            case None =>
              && s.core.unlocked && kid in s.ring
              && Known(s.ring[kid], Creation(suite, requests, j, kid).value, Materials(suite, requests, j, kid))
  {
    OpenExactly(suite, requests, j);
    KeysExactly(suite, requests, j, kid);
    RevokedExactly(suite, requests, j, kid);
    MaterialsExactly(suite, requests, j, kid);
    if kid in Before(suite, requests, j).ring {
      CountsOfMaterials(Before(suite, requests, j).ring[kid]);
    }
    hide Before, IsOpen, Creation, MaterialsOf, Materials;
  }

  /** What the service tells about a key: its creation, and for an AES key the number of versions. */
  function InfoOf(creation: Request, name: string, versions: nat): Metadata
    requires creation.As? && creation.use.Keys? && (creation.use.key.CreateAes? || creation.use.key.CreateSigning?)
  {
    if creation.use.key.CreateAes? then
      Metadata(name, EncryptDecrypt, "AES-256-GCM", versions, creation.now, false)
    else Metadata(name, SignVerify, "ED25519", 1, creation.now, false)
  }

  /** The description of a key before request j. */
  ghost function Info(suite: Suite, requests: seq<Request>, j: nat, kid: KeyId): Metadata
    requires j <= |requests| && Refusal(suite, requests, j, kid) == None
  {
    InfoOf(Creation(suite, requests, j, kid).value, kid.name, |Materials(suite, requests, j, kid)|)
  }

  predicate NameChar(c: char) {
    'a' <= c <= 'z' || 'A' <= c <= 'Z' || '0' <= c <= '9' || c == '_' || c == '-'
  }

  /** A creation succeeds under a free and valid name while the vault is open; the refusals come in this order. */
  lemma CreationAnswered(suite: Suite, requests: seq<Request>, j: nat, kid: KeyId)
    requires j < |requests| && AsksCreation(requests[j], kid)
    ensures Answer(suite, requests, j) ==
      if !(3 <= |kid.name| <= 64 && forall c | c in kid.name :: NameChar(c)) then Failed(ValidationError)
      else if !IsOpen(suite, requests, j) then Failed(VaultLocked)
      else if Creation(suite, requests, j, kid).Some? then Failed(KeyAlreadyExists)
      else KeyInfo(InfoOf(requests[j], kid.name, 1))
  {
    OpenExactly(suite, requests, j);
    KeysExactly(suite, requests, j, kid);
    assert ValidKeyName(kid.name) <==> 3 <= |kid.name| <= 64 && forall c | c in kid.name :: NameChar(c);
    hide Before, IsOpen, Creation, ValidKeyName, NameChar, Audited;
  }

  /** The call works on an existing key of this name; `decrypt` takes the name from the envelope. */
  predicate OnKey(call: KeyCall, name: string) {
    match call
    case GetKey(n) => n == name
    case Rotate(n, _, _) => n == name
    case Revoke(n) => n == name
    case Encrypt(n, _, _) => n == name
    case Decrypt(envelope) => Envelope.Parse(envelope).Ok? && Envelope.Parse(envelope).value.name == name
    case Sign(n, _, _) => n == name
    case Verify(n, _, _, _, _) => n == name
    case _ => false
  }

  lemma RefusedStep(suite: Suite, s: State, request: Request, kid: KeyId, e: Error)
    requires request.As? && request.email == kid.owner && request.use.Keys? && OnKey(request.use.key, kid.name)
    requires Find(s.core.unlocked, s.ring, kid, None) == Err(e)
    ensures Step(suite, s, request).1 == Failed(e)
  {
    hide Envelope.Parse, B64d, B64e, PayloadAad, Envelope.Print, Audited;
  }

  /** A refused key is refused to every call on it, in the same way. */
  lemma RefusalAnswered(suite: Suite, requests: seq<Request>, j: nat, kid: KeyId)
    requires j < |requests| && requests[j].As? && requests[j].email == kid.owner && requests[j].use.Keys?
    requires OnKey(requests[j].use.key, kid.name) && Refusal(suite, requests, j, kid).Some?
    ensures Answer(suite, requests, j) == Failed(Refusal(suite, requests, j, kid).value)
  {
    hide Before, Step, Refusal, OnKey, Find, Materials, Creation, Known;
    FindAnswered(suite, requests, j, kid);
    RefusedStep(suite, Before(suite, requests, j), requests[j], kid, Refusal(suite, requests, j, kid).value);
  }

  lemma GetAnswered(suite: Suite, requests: seq<Request>, j: nat, kid: KeyId)
    requires j < |requests| && Asks(requests[j], kid.owner, GetKey(kid.name))
    ensures match Refusal(suite, requests, j, kid)
            case Some(e) => Answer(suite, requests, j) == Failed(e)
            case None => Answer(suite, requests, j) == KeyInfo(Info(suite, requests, j, kid))
  {
    hide Before, Refusal, Materials, Creation, MaterialsOf, Audited;
    FindAnswered(suite, requests, j, kid);
  }

  /** A revocation succeeds on every key that is not refused. */
  lemma RevocationAnswered(suite: Suite, requests: seq<Request>, j: nat, kid: KeyId)
    requires j < |requests| && Asks(requests[j], kid.owner, KeyCall.Revoke(kid.name))
    ensures match Refusal(suite, requests, j, kid)
            case Some(e) => Answer(suite, requests, j) == Failed(e)
            case None => Answer(suite, requests, j) == Done
  {
    hide Before, Refusal, Materials, Creation, MaterialsOf, Audited;
    FindAnswered(suite, requests, j, kid);
  }

  lemma RotationStep(suite: Suite, s: State, request: Request, kid: KeyId, creation: Request, materials: seq<Bytes>)
    requires AsksRotation(request, kid) && AsksCreation(creation, kid)
    requires s.core.unlocked && kid in s.ring && Known(s.ring[kid], creation, materials)
    ensures Step(suite, s, request).1 ==
      if creation.use.key.CreateSigning? then Failed(InvalidKeyUsage)
      else KeyInfo(InfoOf(creation, kid.name, |materials| + 1))
  {
    hide MaterialsOf, Audited;
  }

  /** A rotation of an AES key answers one version more than there were. */
  lemma RotationAnswered(suite: Suite, requests: seq<Request>, j: nat, kid: KeyId)
    requires j < |requests| && AsksRotation(requests[j], kid)
    ensures Refusal(suite, requests, j, kid).Some? ==>
      Answer(suite, requests, j) == Failed(Refusal(suite, requests, j, kid).value)
    ensures Refusal(suite, requests, j, kid) == None ==>
      Answer(suite, requests, j) ==
        if Creation(suite, requests, j, kid).value.use.key.CreateSigning? then Failed(InvalidKeyUsage)
        else KeyInfo(InfoOf(Creation(suite, requests, j, kid).value, kid.name,
          |Materials(suite, requests, j, kid)| + 1))
  {
    hide Before, Step, Refusal, Materials, Creation, Known, Find, InfoOf, Envelope.Parse;
    FindAnswered(suite, requests, j, kid);
    if Refusal(suite, requests, j, kid).Some? {
      RefusalAnswered(suite, requests, j, kid);
    } else {
      RotationStep(suite, Before(suite, requests, j), requests[j], kid, Creation(suite, requests, j, kid).value,
                   Materials(suite, requests, j, kid));
    }
  }

  /** A listing describes exactly the owner's keys that were created and not revoked. */
  lemma ListAnswered(suite: Suite, requests: seq<Request>, j: nat, owner: string) returns (infos: set<Metadata>)
    requires j < |requests| && Asks(requests[j], owner, ListKeys)
    ensures Answer(suite, requests, j) == if IsOpen(suite, requests, j) then KeySet(infos) else Failed(VaultLocked)
    ensures IsOpen(suite, requests, j) ==> forall info ::
      info in infos <==> Describes(suite, requests, j, KeyId(owner, info.name), info)
  {
    var s := Before(suite, requests, j);
    infos := Descriptions(s.ring, UsableKeys(s.ring, owner));
    OpenExactly(suite, requests, j);
    if IsOpen(suite, requests, j) {
      forall info: Metadata
        ensures info in infos <==> Describes(suite, requests, j, KeyId(owner, info.name), info)
      {
        hide Before, IsOpen;
        ListedExactly(suite, requests, j, owner, info);
      }
    }
    hide Before, IsOpen, Describes, Descriptions, UsableKeys, Audited;
  }

  ghost predicate Describes(suite: Suite, requests: seq<Request>, j: nat, kid: KeyId, info: Metadata)
    requires j <= |requests|
  {
    Refusal(suite, requests, j, kid) == None && info == Info(suite, requests, j, kid)
  }

  lemma ListedExactly(suite: Suite, requests: seq<Request>, j: nat, owner: string, info: Metadata)
    requires j <= |requests| && Before(suite, requests, j).core.unlocked
    ensures var ring := Before(suite, requests, j).ring;
            info in Descriptions(ring, UsableKeys(ring, owner)) <==>
              Describes(suite, requests, j, KeyId(owner, info.name), info)
  {
    var ring := Before(suite, requests, j).ring;
    var kid := KeyId(owner, info.name);
    hide Before, Refusal, Materials, Creation, MaterialsOf;
    FindAnswered(suite, requests, j, kid);
    assert info in Descriptions(ring, UsableKeys(ring, owner)) <==>
      kid in ring && !ring[kid].revoked && info == KeyringModel.Describe(kid.name, ring[kid]) by {
      if info in Descriptions(ring, UsableKeys(ring, owner)) {
        var k :| k in UsableKeys(ring, owner) && info == KeyringModel.Describe(k.name, ring[k]);
        assert k == kid;
      }
      if kid in ring && !ring[kid].revoked && info == KeyringModel.Describe(kid.name, ring[kid]) {
        assert kid in UsableKeys(ring, owner);
      }
    }
  }

  lemma WrongUsageStep(suite: Suite, s: State, request: Request, kid: KeyId)
    requires request.As? && request.email == kid.owner && request.use.Keys? && OnKey(request.use.key, kid.name)
    requires s.core.unlocked && kid in s.ring && !s.ring[kid].revoked
    requires if s.ring[kid].AesKey? then request.use.key.Sign? || request.use.key.Verify?
             else request.use.key.Encrypt? || request.use.key.Decrypt? || request.use.key.Rotate?
    ensures Step(suite, s, request).1 == Failed(InvalidKeyUsage)
  {
    hide Envelope.Parse, B64d, B64e, PayloadAad, Envelope.Print, Audited;
  }

  /** Encryption prints the newest version, sealed with the material that version drew, bound to its place. */
  lemma EncryptionAnswered(suite: Suite, requests: seq<Request>, j: nat, kid: KeyId, plaintext64: string, nonce: Nonce)
    requires j < |requests| && Asks(requests[j], kid.owner, KeyCall.Encrypt(kid.name, plaintext64, nonce))
    ensures match Refusal(suite, requests, j, kid)
            case Some(e) => Answer(suite, requests, j) == Failed(e)
            case None =>
              Answer(suite, requests, j) ==
                if Creation(suite, requests, j, kid).value.use.key.CreateSigning? then Failed(InvalidKeyUsage)
                else EncryptionOf(suite, kid, Materials(suite, requests, j, kid), plaintext64, nonce)
  {
    hide Before, Step, Refusal, Materials, Creation, MaterialsOf, EncryptionOf;
    FindAnswered(suite, requests, j, kid);
    if Refusal(suite, requests, j, kid).Some? {
      RefusalAnswered(suite, requests, j, kid);
    } else if Before(suite, requests, j).ring[kid].AesKey? {
      EncryptionStep(suite, Before(suite, requests, j), requests[j], kid, plaintext64, nonce);
    } else {
      WrongUsageStep(suite, Before(suite, requests, j), requests[j], kid);
    }
  }

  /** At most 1048576 bytes are sealed with the newest material. */
  function EncryptionOf(suite: Suite, kid: KeyId, materials: seq<Bytes>, plaintext64: string, nonce: Nonce): Response {
    match B64d(plaintext64)
    case None => Failed(ValidationError)
    case Some(plaintext) =>
      if |plaintext| > 1048576 || materials == [] then Failed(ValidationError)
      else
        var v := Text.Dec(|materials|);
        var body := suite.seal(materials[|materials| - 1], nonce, plaintext,
                               "transit:" + kid.owner + ":" + kid.name + ":v" + v);
        Response.Text("vault:v" + v + ":" + kid.name + ":" + B64e(nonce + body))
  }

  lemma SealedText(suite: Suite, key: Key, kid: KeyId, plaintext: Bytes, nonce: Nonce)
    requires key.AesKey?
    ensures var n := |key.versions|;
            var v := Text.Dec(n);
            var body := suite.seal(MaterialsOf(key)[n - 1], nonce, plaintext,
                                   "transit:" + kid.owner + ":" + kid.name + ":v" + v);
            Envelope.Print(n, kid.name, nonce + SealWith(suite, key, kid, plaintext, nonce).body)
              == "vault:v" + v + ":" + kid.name + ":" + B64e(nonce + body)
  {
    var n := |key.versions|;
    hide B64e, Text.Dec, PayloadAad, Envelope.Print;
    Formats.ContextTexts(kid, n);
    Formats.EnvelopeText(n, kid.name, nonce + SealWith(suite, key, kid, plaintext, nonce).body);
  }

  lemma EncryptionStep(suite: Suite, s: State, request: Request, kid: KeyId, plaintext64: string, nonce: Nonce)
    requires Asks(request, kid.owner, KeyCall.Encrypt(kid.name, plaintext64, nonce))
    requires s.core.unlocked && kid in s.ring && !s.ring[kid].revoked && s.ring[kid].AesKey?
    ensures Step(suite, s, request).1 == EncryptionOf(suite, kid, MaterialsOf(s.ring[kid]), plaintext64, nonce)
  {
    hide B64d, B64e, Text.Dec, PayloadAad, Envelope.Print, Audited, SealWith;
    if B64d(plaintext64).Some? && |B64d(plaintext64).value| <= 1048576 {
      SealedText(suite, s.ring[kid], kid, B64d(plaintext64).value, nonce);
    }
  }

  /** An earlier encryption by this owner under this name answered exactly this version and blob for these bytes. */
  ghost predicate Issued(suite: Suite, requests: seq<Request>, j: nat, kid: KeyId, p: Envelope.Parsed, plaintext: Bytes)
    requires j <= |requests|
  {
    exists k: nat :: k < j
      && Durability.Encrypted(suite, requests, k, kid, Envelope.Print(p.version, p.name, p.blob), plaintext)
  }

  /** Request j is answered with what was issued as this version and blob, or fails if nothing was. */
  ghost predicate AnswersIssued(suite: Suite, requests: seq<Request>, j: nat, kid: KeyId, p: Envelope.Parsed)
    requires j < |requests|
  {
    && (forall plaintext :: Issued(suite, requests, j, kid, p, plaintext) ==>
          Answer(suite, requests, j) == Response.Text(B64e(plaintext)))
    && ((forall plaintext :: !Issued(suite, requests, j, kid, p, plaintext)) ==>
          Answer(suite, requests, j) == Failed(DecryptionFailed))
  }

  ghost predicate Holds(ring: Keyring, kid: KeyId, p: Envelope.Parsed, plaintext: Bytes)
    requires p.version >= 1 && |p.blob| >= 28
  {
    && kid in ring && ring[kid].AesKey? && p.version <= |ring[kid].versions|
    && var version := ring[kid].versions[p.version - 1];
       var box := Box(version.material, p.blob[..12], p.blob[12..]);
       box in version.issued && version.issued[box] == plaintext
  }

  lemma IssuedIsHeld(suite: Suite, requests: seq<Request>, j: nat, kid: KeyId, p: Envelope.Parsed, plaintext: Bytes)
    requires j <= |requests| && p.version >= 1 && |p.blob| >= 28 && p.name == kid.name
    requires Issued(suite, requests, j, kid, p, plaintext)
    ensures Holds(Before(suite, requests, j).ring, kid, p, plaintext)
  {
    hide Before, Envelope.Print, ValidKeyName, Durability.Encrypted, Lineage.HoldsBox, Holds;
    var envelope := Envelope.Print(p.version, p.name, p.blob);
    var k: nat :| k < j && Durability.Encrypted(suite, requests, k, kid, envelope, plaintext);
    var v, box := Durability.EncryptedIsHeld(suite, requests, k, j, kid, envelope, plaintext);
    HeldVersion(Before(suite, requests, j).ring, kid, v, box, plaintext);
    SamePrint(kid.name, p.version, p.blob, v, box.nonce + box.body);
    HeldBox(Before(suite, requests, j).ring, kid, p, box, plaintext);
  }

  lemma HeldVersion(ring: Keyring, kid: KeyId, v: nat, box: Box, plaintext: Bytes)
    requires Lineage.HoldsBox(ring, kid, v, box, plaintext)
    ensures v >= 1
  {
  }

  lemma HeldBox(ring: Keyring, kid: KeyId, p: Envelope.Parsed, box: Box, plaintext: Bytes)
    requires Lineage.HoldsBox(ring, kid, p.version, box, plaintext) && |p.blob| >= 28
    requires ring[kid].versions[p.version - 1].material == box.key && p.blob == box.nonce + box.body
    ensures Holds(ring, kid, p, plaintext)
  {
    assert p.blob[..12] == box.nonce && p.blob[12..] == box.body;
  }

  lemma SamePrint(name: string, v: nat, blob: Bytes, w: nat, blob': Bytes)
    requires ValidKeyName(name) && v >= 1 && w >= 1 && |blob| >= 28 && |blob'| >= 28
    requires Envelope.Print(v, name, blob) == Envelope.Print(w, name, blob')
    ensures v == w && blob == blob'
  {
    hide Envelope.Print, Envelope.Parse, ValidKeyName;
    Envelope.RoundTrip(v, name, blob);
    Envelope.RoundTrip(w, name, blob');
  }

  lemma HeldIsIssued(suite: Suite, requests: seq<Request>, j: nat, kid: KeyId, p: Envelope.Parsed, plaintext: Bytes)
    requires j <= |requests| && p.version >= 1 && |p.blob| >= 28 && p.name == kid.name
    requires Holds(Before(suite, requests, j).ring, kid, p, plaintext)
    ensures Issued(suite, requests, j, kid, p, plaintext)
  {
    hide Before, Envelope.Print, Durability.Encrypted;
    var version := Before(suite, requests, j).ring[kid].versions[p.version - 1];
    var box := Box(version.material, p.blob[..12], p.blob[12..]);
    assert box.nonce + box.body == p.blob;
    var k := Durability.BoxesAreEncrypted(suite, requests, j, kid, p.version, box, plaintext);
  }

  lemma DecryptionStep(suite: Suite, s: State, request: Request, p: Envelope.Parsed)
    requires request.As? && request.use.Keys? && request.use.key.Decrypt?
      && Envelope.Parse(request.use.key.envelope) == Ok(p)
    requires var kid := KeyId(request.email, p.name);
             s.core.unlocked && kid in s.ring && !s.ring[kid].revoked && s.ring[kid].AesKey?
    ensures var kid, response := KeyId(request.email, p.name), Step(suite, s, request).1;
            if p.version > |s.ring[kid].versions| then response == Failed(KeyVersionNotFound)
            else
              && (forall plaintext :: Holds(s.ring, kid, p, plaintext) ==> response == Response.Text(B64e(plaintext)))
              && ((forall plaintext :: !Holds(s.ring, kid, p, plaintext)) ==> response == Failed(DecryptionFailed))
  {
    hide Envelope.Parse, B64e, Audited;
    var kid := KeyId(request.email, p.name);
    if p.version <= |s.ring[kid].versions| {
      var version := s.ring[kid].versions[p.version - 1];
      var box := Box(version.material, p.blob[..12], p.blob[12..]);
      if box in version.issued {
        assert Holds(s.ring, kid, p, version.issued[box]);
      }
    }
  }

  lemma MalformedAnswered(suite: Suite, requests: seq<Request>, j: nat, owner: string, envelope: string)
    requires j < |requests| && Asks(requests[j], owner, KeyCall.Decrypt(envelope)) && Envelope.Parse(envelope).Err?
    ensures Answer(suite, requests, j) == Failed(InvalidCiphertext)
  {
    hide Before, Envelope.Parse, Audited;
  }

  /**
   Decryption of a well-formed envelope gives back exactly what an earlier encryption by the same user put under
   that name, version and blob, and fails if there was none; refused keys, signing keys and unknown versions fail
   before that, in this order.
   */
  lemma DecryptionAnswered(suite: Suite, requests: seq<Request>, j: nat, kid: KeyId, envelope: string,
    p: Envelope.Parsed)
    requires j < |requests| && Asks(requests[j], kid.owner, KeyCall.Decrypt(envelope))
    requires Envelope.Parse(envelope) == Ok(p) && p.name == kid.name
    ensures Refusal(suite, requests, j, kid).Some? ==>
      Answer(suite, requests, j) == Failed(Refusal(suite, requests, j, kid).value)
    ensures Refusal(suite, requests, j, kid) == None ==>
      if Creation(suite, requests, j, kid).value.use.key.CreateSigning? then
        Answer(suite, requests, j) == Failed(InvalidKeyUsage)
      else if p.version > |Materials(suite, requests, j, kid)| then
        Answer(suite, requests, j) == Failed(KeyVersionNotFound)
      else AnswersIssued(suite, requests, j, kid, p)
  {
    var s := Before(suite, requests, j);
    assert p.version >= 1 && |p.blob| >= 28;
    FindAnswered(suite, requests, j, kid);
    forall plaintext
      ensures Issued(suite, requests, j, kid, p, plaintext) <==> Holds(s.ring, kid, p, plaintext)
    {
      if Issued(suite, requests, j, kid, p, plaintext) {
        IssuedIsHeld(suite, requests, j, kid, p, plaintext);
      }
      if Holds(s.ring, kid, p, plaintext) {
        HeldIsIssued(suite, requests, j, kid, p, plaintext);
      }
    }
    hide Before, Step, Envelope.Parse, B64e, Refusal, Materials, Creation, MaterialsOf, Issued, Holds;
    if Refusal(suite, requests, j, kid).Some? {
      RefusalAnswered(suite, requests, j, kid);
    } else if s.ring[kid].AesKey? {
      DecryptionStep(suite, s, requests[j], p);
    } else {
      WrongUsageStep(suite, s, requests[j], kid);
    }
  }

  lemma SigningStep(suite: Suite, s: State, request: Request, kid: KeyId, message64: string, isDigest: bool)
    requires Asks(request, kid.owner, KeyCall.Sign(kid.name, message64, isDigest))
    requires s.core.unlocked && kid in s.ring && !s.ring[kid].revoked && s.ring[kid].SigningKey?
    ensures Step(suite, s, request).1 ==
      if B64d(message64) == None then Failed(ValidationError)
      else if isDigest && |B64d(message64).value| != 32 then Failed(InvalidDigestLength)
      else Response.Text(B64e(suite.sign(s.ring[kid].seed, B64d(message64).value)))
  {
    hide Audited, B64d, B64e;
  }

  /** Signing answers the signature of the decoded bytes under the key pair that the creation drew. */
  lemma SigningAnswered(suite: Suite, requests: seq<Request>, j: nat, kid: KeyId, message64: string, isDigest: bool)
    requires j < |requests| && Asks(requests[j], kid.owner, KeyCall.Sign(kid.name, message64, isDigest))
    ensures match Refusal(suite, requests, j, kid)
            case Some(e) => Answer(suite, requests, j) == Failed(e)
            case None =>
              var creation := Creation(suite, requests, j, kid).value;
              Answer(suite, requests, j) ==
                if creation.use.key.CreateAes? then Failed(InvalidKeyUsage)
                else if B64d(message64) == None then Failed(ValidationError)
                else if isDigest && |B64d(message64).value| != 32 then Failed(InvalidDigestLength)
                else Response.Text(B64e(suite.sign(creation.use.key.seed, B64d(message64).value)))
  {
    hide Before, Step, Refusal, Materials, Creation, MaterialsOf, B64d, B64e;
    FindAnswered(suite, requests, j, kid);
    if Refusal(suite, requests, j, kid).Some? {
      RefusalAnswered(suite, requests, j, kid);
    } else if Before(suite, requests, j).ring[kid].AesKey? {
      WrongUsageStep(suite, Before(suite, requests, j), requests[j], kid);
    } else {
      SigningStep(suite, Before(suite, requests, j), requests[j], kid, message64, isDigest);
    }
  }

  /** Request k was answered with this signature of these bytes under a key pair with this public key. */
  ghost predicate SignedAt(suite: Suite, requests: seq<Request>, k: nat, signer: KeyId, signature: Signature)
    requires k < |requests|
  {
    && SignTheorems.AsksSign(requests[k], signer) && B64d(requests[k].use.key.message64) == Some(signature.message)
    && Answer(suite, requests, k) == Response.Text(B64e(signature.bytes))
    && var creation := Creation(suite, requests, k, signer);
       && creation.Some? && creation.value.use.key.CreateSigning?
       && suite.public(creation.value.use.key.seed) == signature.public
  }

  ghost predicate SignedBefore(suite: Suite, requests: seq<Request>, j: nat, signature: Signature)
    requires j <= |requests|
  {
    exists k, signer :: 0 <= k < j && SignedAt(suite, requests, k, signer, signature)
  }

  lemma SignedExactly(suite: Suite, requests: seq<Request>, j: nat, signature: Signature)
    requires j <= |requests|
    ensures signature in Before(suite, requests, j).signed <==> SignedBefore(suite, requests, j, signature)
  {
    hide Before, Step, B64d, B64e, Creation, Creates;
    if signature in Before(suite, requests, j).signed {
      var k, signer := SignTheorems.SignedEarlier(suite, requests, j, signature);
      KeysExactly(suite, requests, k, signer);
      assert SignedAt(suite, requests, k, signer, signature);
    }
    if SignedBefore(suite, requests, j, signature) {
      var k, signer :| 0 <= k < j && SignedAt(suite, requests, k, signer, signature);
      var made := SignTheorems.SignStep(suite, Before(suite, requests, k), requests[k], signer, B64e(signature.bytes));
      Injective(made.bytes, signature.bytes);
      KeysExactly(suite, requests, k, signer);
      assert made == signature;
      OneStep(suite, requests, k);
      SignTheorems.SignaturesStay(suite, requests, k + 1, j);
    }
  }

  lemma VerificationStep(suite: Suite, s: State, request: Request, kid: KeyId, call: KeyCall)
    requires Asks(request, kid.owner, call) && call.Verify? && call.name == kid.name
    requires s.core.unlocked && kid in s.ring && !s.ring[kid].revoked
    ensures var key, message, bytes := s.ring[kid], B64d(call.message64), B64d(call.signature64);
            Step(suite, s, request).1 ==
              if key.AesKey? then Failed(InvalidKeyUsage)
              else if message == None then Failed(ValidationError)
              else if call.algorithm.Some? && call.algorithm.value != ""
                && call.algorithm.value != "ED25519" then Failed(InvalidSigningAlgorithm)
              else if call.isDigest && |message.value| != 32 then Failed(InvalidDigestLength)
              else if bytes == None then Validity(false)
              else Validity(Signature(suite.public(key.seed), message.value, bytes.value) in s.signed)
  {
    hide Audited, B64d, B64e;
  }

  /** Verification is true exactly for signatures that were answered earlier for these bytes and this key pair. */
  lemma VerificationAnswered(suite: Suite, requests: seq<Request>, j: nat, kid: KeyId, call: KeyCall)
    requires j < |requests| && Asks(requests[j], kid.owner, call) && call.Verify? && call.name == kid.name
    ensures match Refusal(suite, requests, j, kid)
            case Some(e) => Answer(suite, requests, j) == Failed(e)
            case None =>
              var creation, message := Creation(suite, requests, j, kid).value, B64d(call.message64);
              var bytes := B64d(call.signature64);
              if creation.use.key.CreateAes? then Answer(suite, requests, j) == Failed(InvalidKeyUsage)
              else if message == None then Answer(suite, requests, j) == Failed(ValidationError)
              else if call.algorithm.Some? && call.algorithm.value != "" && call.algorithm.value != "ED25519" then
                Answer(suite, requests, j) == Failed(InvalidSigningAlgorithm)
              else if call.isDigest && |message.value| != 32 then
                Answer(suite, requests, j) == Failed(InvalidDigestLength)
              else
                && Answer(suite, requests, j).Validity?
                && (Answer(suite, requests, j).valid <==>
                      bytes.Some? && SignedBefore(suite, requests, j,
                        Signature(suite.public(creation.use.key.seed), message.value, bytes.value)))
  {
    hide Before, Step, Refusal, Materials, Creation, MaterialsOf, B64d, B64e, SignedBefore;
    FindAnswered(suite, requests, j, kid);
    if Refusal(suite, requests, j, kid).Some? {
      RefusalAnswered(suite, requests, j, kid);
    } else {
      var s := Before(suite, requests, j);
      VerificationStep(suite, s, requests[j], kid, call);
      if s.ring[kid].SigningKey? && B64d(call.message64).Some? && B64d(call.signature64).Some? {
        SignedExactly(suite, requests, j, Signature(suite.public(s.ring[kid].seed), B64d(call.message64).value,
                                                    B64d(call.signature64).value));
      }
    }
  }

  /** A key is not refused as revoked before its revocation succeeds, and is revoked ever after. */
  lemma RevocationTakesHold(suite: Suite, requests: seq<Request>, i: nat, j: nat, kid: KeyId)
    requires i < j <= |requests| && Revokes(suite, requests, i, kid)
    ensures kid in Before(suite, requests, i).ring && !Before(suite, requests, i).ring[kid].revoked
    ensures kid in Before(suite, requests, j).ring && Before(suite, requests, j).ring[kid].revoked
    ensures Refusal(suite, requests, i, kid) == None
    ensures Refusal(suite, requests, j, kid) == Some(if IsOpen(suite, requests, j) then KeyNotFound else VaultLocked)
  {
    RevokedExactly(suite, requests, j, kid);
    RevocationIsOfAKey(suite, requests, i, kid);
    KeysExactly(suite, requests, j, kid);
    RevocationAnswered(suite, requests, i, kid);
    assert Revoked(suite, requests, j, kid);
    hide Before, IsOpen, Creation, Answer;
  }

  /**
   After an answered revocation, while the vault is open, every call of the owner on that name finds no key, no
   listing shows it, and no creation takes the name again.
   */
  lemma RevokedIsGone(suite: Suite, requests: seq<Request>, i: nat, j: nat, kid: KeyId)
    requires i < j < |requests| && Revokes(suite, requests, i, kid) && IsOpen(suite, requests, j)
    requires requests[j].As? && requests[j].email == kid.owner && requests[j].use.Keys?
    ensures OnKey(requests[j].use.key, kid.name) ==> Answer(suite, requests, j) == Failed(KeyNotFound)
    ensures AsksCreation(requests[j], kid) ==> Answer(suite, requests, j).Failed?
    ensures requests[j].use.key.ListKeys? ==>
      && Answer(suite, requests, j).KeySet?
      && forall info | info in Answer(suite, requests, j).infos :: info.name != kid.name
  {
    hide Before, Step, Refusal, IsOpen, Creation, OnKey, Answer, Info, Revokes;
    RevocationTakesHold(suite, requests, i, j, kid);
    KeysExactly(suite, requests, j, kid);
    if OnKey(requests[j].use.key, kid.name) {
      RefusalAnswered(suite, requests, j, kid);
    }
    if AsksCreation(requests[j], kid) {
      CreationAnswered(suite, requests, j, kid);
    }
    if requests[j].use.key.ListKeys? {
      var infos := ListAnswered(suite, requests, j, kid.owner);
      assert forall info | info in infos :: KeyId(kid.owner, info.name) == kid <==> info.name == kid.name;
    }
  }

  /** The number that an encryption prints, and that a description tells, is one more than the answered rotations. */
  lemma VersionsCount(suite: Suite, requests: seq<Request>, j: nat, kid: KeyId)
    requires j <= |requests| && Creation(suite, requests, j, kid).Some?
    requires Creation(suite, requests, j, kid).value.use.key.CreateAes?
    ensures |Materials(suite, requests, j, kid)| == 1 + Rotations(suite, requests, j, kid)
  {
    KeysExactly(suite, requests, j, kid);
    MaterialsExactly(suite, requests, j, kid);
    VersionsAreRotations(suite, requests, j, kid);
    hide Before, Materials, Rotations, Creation;
    CountsOfMaterials(Before(suite, requests, j).ring[kid]);
  }
}
