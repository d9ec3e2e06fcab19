/** app/transit/service.py over its two tables, proved to behave as the keyring they stand for. */
module Transit {
  import opened Basics
  import opened Base64
  import opened Validation
  import opened Contexts
  import opened Crypto
  import opened Versions
  import opened Database
  import opened KeyTables
  import opened Wrappings
  import Envelope
  import VaultModel
  import KeyringModel

  type Usage = KeyringModel.Usage
  type Metadata = KeyringModel.Metadata

  /** While unlocked, memory holds the DEK that `init` drew. */
  ghost predicate DekHeld(dek: Option<Bytes>, core: VaultModel.Core) {
    dek == if core.unlocked && core.master.Some? then Some(core.master.value.dek) else None
  }

  ghost function DekOf(core: VaultModel.Core): Bytes {
    if core.master.Some? then core.master.value.dek else []
  }

  /** What reading back the key material of a version means. */
  ghost function MaterialOf(unlocked: bool, key: KeyringModel.Key, version: Option<int>): Result<Bytes> {
    var v := if version.Some? then version.value else key.CurrentVersion();
    if !(1 <= v <= key.CurrentVersion()) then Err(KeyVersionNotFound)
    else if !unlocked then Err(VaultLocked)
    else Ok(if key.AesKey? then key.versions[v - 1].material else key.seed)
  }

  lemma NoDescriptions(ring: KeyringModel.Keyring)
    ensures KeyringModel.Descriptions(ring, {}) == {}
  {
  }

  lemma OneMoreDescription(ring: KeyringModel.Keyring, kids: set<KeyId>, kid: KeyId)
    requires kid in ring
    ensures KeyringModel.Descriptions(ring, kids + {kid}) ==
      KeyringModel.Descriptions(ring, kids) + {KeyringModel.Describe(kid.name, ring[kid])}
  {
  }

  class TransitService {
    const db: Tables
    const state: VaultState
    const crypto: CryptoService

    constructor (db: Tables, state: VaultState, crypto: CryptoService)
      ensures this.db == db && this.state == state && this.crypto == crypto
    {
      this.db, this.state, this.crypto := db, state, crypto;
    }

    ghost function Snapshot(): KeyTables
      reads db
    {
      KeyTables(db.keys, db.keyVersions, db.keyHistory, db.ring)
    }

    ghost predicate Valid()
      reads this, db, state, crypto
    {
      Agrees() && WrapsAgree(db.ring, crypto.log)
    }

    ghost predicate Agrees()
      reads this, db, state, crypto
    {
      && crypto.Valid() && DekHeld(state.dek, db.core)
      && KeysAgree(crypto.suite, Snapshot(), crypto.log, DekOf(db.core))
    }

    ghost predicate Unlocked()
      reads state
    {
      state.dek.Some?
    }

    method Select(email: string, name: string) returns (id: Option<int>)
      requires Valid()
      ensures id.Some? <==> KeyId(email, name) in db.ring
      ensures id.Some? ==> id.value in db.keys && db.keys[id.value].kid == KeyId(email, name)
    {
      hide KeysAgree, WrapsAgree, KeyAad, PayloadAad, Ladder, Consistent, LogOf;
      if i :| i in db.keys && db.keys[i].kid == KeyId(email, name) {
        RowMatchesKey(crypto.suite, Snapshot(), crypto.log, DekOf(db.core), i);
        id := Some(i);
      } else {
        id := None;
        RowExists(crypto.suite, Snapshot(), crypto.log, DekOf(db.core), KeyId(email, name));
      }
    }

    /** The row id of a usable key; the checks run in the order lock, existence, revocation, usage. */
    method Find(email: string, name: string, usage: Option<Usage>) returns (r: Result<int>)
      requires Valid()
      ensures var spec := KeyringModel.Find(Unlocked(), db.ring, KeyId(email, name), usage);
              (r.Ok? <==> spec.Ok?) && (r.Err? ==> r.error == spec.error)
      ensures r.Ok? ==> r.value in db.keys && db.keys[r.value].kid == KeyId(email, name)
    {
      hide KeysAgree, WrapsAgree, KeyAad, PayloadAad, Ladder, Consistent, LogOf;
      var _ :- state.RequireDek();
      var id := Select(email, name);
      if id.None? {
        return Err(PermissionDenied);
      }
      RowMatchesKey(crypto.suite, Snapshot(), crypto.log, DekOf(db.core), id.value);
      var row := db.keys[id.value];
      if row.revokedAt.Some? {
        return Err(KeyNotFound);
      }
      if usage.Some? && row.usage != usage.value {
        return Err(InvalidKeyUsage);
      }
      r := Ok(id.value);
    }

    method CurrentVersion(id: int) returns (row: Option<VersionRow>)
      requires Valid() && id in db.keys && db.keys[id].kid in db.ring
      ensures db.ring[db.keys[id].kid].AesKey? ==>
        row.Some? && row.value.version == |db.ring[db.keys[id].kid].versions|
      ensures db.ring[db.keys[id].kid].SigningKey? ==> row == None
      ensures id in db.keyHistory
      ensures row.Some? ==> db.keyHistory[id] != [] && row.value.entry == db.keyHistory[id][|db.keyHistory[id]| - 1]
    {
      hide KeysAgree, WrapsAgree, KeyAad, PayloadAad, Ladder, Consistent, LogOf;
      RowMatchesKey(crypto.suite, Snapshot(), crypto.log, DekOf(db.core), id);
      row := SelectLatest(db.keyVersions, db.keyHistory, id);
    }

    method Describe(id: int) returns (m: Metadata)
      requires Valid() && id in db.keys && db.keys[id].kid in db.ring
      ensures m == KeyringModel.Describe(db.keys[id].kid.name, db.ring[db.keys[id].kid])
    {
      hide KeysAgree, WrapsAgree, KeyAad, PayloadAad, Ladder, Consistent, LogOf;
      RowMatchesKey(crypto.suite, Snapshot(), crypto.log, DekOf(db.core), id);
      var version := CurrentVersion(id);
      var row := db.keys[id];
      m := KeyringModel.Metadata(row.kid.name, row.usage, row.algorithm,
                                 if version.Some? then version.value.version else 1,
                                 row.createdAt, row.revokedAt.Some?);
    }

    /** Unwraps key material under the associated data of its version. */
    method Material(id: int, version: Option<int>) returns (r: Result<Bytes>)
      requires Valid() && id in db.keys && db.keys[id].kid in db.ring
      ensures r == MaterialOf(Unlocked(), db.ring[db.keys[id].kid], version)
    {
      hide KeysAgree, WrapsAgree, KeyAad, PayloadAad, Ladder, Consistent, LogOf;
      var row := db.keys[id];
      RowMatchesKey(crypto.suite, Snapshot(), crypto.log, DekOf(db.core), id);
      var record := None;
      var v := 1;
      if version.Some? {
        v := version.value;
        record := SelectVersion(db.keyVersions, db.keyHistory, id, v);
        if record.None? && v != 1 {
          return Err(KeyVersionNotFound);
        }
      } else if row.usage == KeyringModel.EncryptDecrypt {
        record := CurrentVersion(id);
        v := if record.Some? then record.value.version else 1;
      }
      assert v >= 1;
      var aad := KeyAad(row.kid, v);
      var nonce := if record.Some? then record.value.entry.nonce else row.nonce;
      var body := if record.Some? then record.value.entry.body else row.material;
      MaterialOpens(crypto.suite, Snapshot(), crypto.log, DekOf(db.core), id, v);
      var dek :- state.RequireDek();
      var material := crypto.Decrypt(dek, nonce, body, aad);
      r := if material.Some? then Ok(material.value) else Err(DecryptionFailed);
    }

    method CreateAes(email: string, name: string, material: Bytes, nonce: Nonce, now: Time)
      returns (r: Result<Metadata>)
      requires Valid() && ValidEmail(email)
      modifies db`keys, db`keyVersions, db`keyHistory, db`ring, crypto`log, crypto`calls
      ensures Valid() && TouchesOnly(old(crypto.log), crypto.log, {'k'})
      ensures AtMostOneSeal(old(crypto.calls), crypto.calls, Some(nonce))
      ensures (db.ring, r) == KeyringModel.Create(Unlocked(), old(db.ring), KeyId(email, name),
        KeyringModel.NewAesKey(material, now))
    {
      hide KeysAgree, WrapsAgree, KeyAad, PayloadAad, Ladder, Consistent, LogOf;
      if !ValidKeyName(name) {
        return Err(ValidationError);
      }
      var dek :- state.RequireDek();
      var existing := Select(email, name);
      if existing.Some? {
        return Err(KeyAlreadyExists);
      }
      var kid := KeyId(email, name);
      ghost var log0, t := crypto.log, Snapshot();
      var wrapped := crypto.Encrypt(dek, nonce, material, KeyAad(kid, 1));
      Engines(kid, 1);
      TouchedEngine(log0, crypto.log, KeyAad(kid, 1), 'k');
      GrowthKeepsKeys(crypto.suite, t, log0, crypto.log, dek);
      var row := KeyRow(kid, KeyringModel.EncryptDecrypt, "AES-256-GCM", nonce, wrapped, None, None, now);
      InsertAes(row, Entry(nonce, wrapped, now), material);
      NewMaterial(t.ring, log0, crypto.log, kid, KeyringModel.NewAesKey(material, now), 1, Box(dek, nonce, wrapped),
        material);
      r := Ok(KeyringModel.Metadata(name, row.usage, row.algorithm, 1, row.createdAt, false));
    }

    /** The row of a new AES key and its first version row. */
    method InsertAes(row: KeyRow, entry: Entry, ghost material: Bytes)
      requires WellNamed(row.kid) && row.kid !in db.ring
      requires row == KeyRow(row.kid, KeyringModel.EncryptDecrypt, "AES-256-GCM", entry.nonce, entry.body, None, None,
        row.createdAt)
      requires Wraps(crypto.log, DekOf(db.core), entry, KeyAad(row.kid, 1), material) && Agrees()
      modifies db`keys, db`keyVersions, db`keyHistory, db`ring
      ensures db.ring == old(db.ring)[row.kid := KeyringModel.NewAesKey(material, row.createdAt)]
      ensures Agrees()
    {
      hide KeysAgree, KeyAad, PayloadAad, Ladder, Consistent, LogOf, Wraps, WellNamed;
      var id := FreshId(db.keys.Keys);
      var vid := FreshId(db.keyVersions.Keys);
      AddAesKey(crypto.suite, Snapshot(), crypto.log, DekOf(db.core), id, row, vid, entry, material, row.createdAt);
      db.keys := db.keys[id := row];
      db.keyVersions := db.keyVersions[vid := VersionRow(id, 1, entry)];
      db.keyHistory := db.keyHistory[id := [entry]];
      db.ring := db.ring[row.kid := KeyringModel.NewAesKey(material, row.createdAt)];
    }

    method CreateSigning(email: string, name: string, seed: Bytes, nonce: Nonce, now: Time)
      returns (r: Result<Metadata>)
      requires Valid() && ValidEmail(email)
      modifies db`keys, db`keyHistory, db`ring, crypto`log, crypto`calls
      ensures Valid() && TouchesOnly(old(crypto.log), crypto.log, {'k'})
      ensures AtMostOneSeal(old(crypto.calls), crypto.calls, Some(nonce))
      ensures (db.ring, r) == KeyringModel.Create(Unlocked(), old(db.ring), KeyId(email, name),
        KeyringModel.NewSigningKey(seed, now))
    {
      hide KeysAgree, WrapsAgree, KeyAad, PayloadAad, Ladder, Consistent, LogOf;
      if !ValidKeyName(name) {
        return Err(ValidationError);
      }
      var dek :- state.RequireDek();
      var existing := Select(email, name);
      if existing.Some? {
        return Err(KeyAlreadyExists);
      }
      var kid := KeyId(email, name);
      var public := crypto.suite.public(seed);
      ghost var log0, t := crypto.log, Snapshot();
      var wrapped := crypto.Encrypt(dek, nonce, seed, KeyAad(kid, 1));
      Engines(kid, 1);
      TouchedEngine(log0, crypto.log, KeyAad(kid, 1), 'k');
      GrowthKeepsKeys(crypto.suite, t, log0, crypto.log, dek);
      var row := KeyRow(kid, KeyringModel.SignVerify, "ED25519", nonce, wrapped, Some(public), None, now);
      InsertSigning(row, seed);
      NewMaterial(t.ring, log0, crypto.log, kid, KeyringModel.NewSigningKey(seed, now), 1, Box(dek, nonce, wrapped),
        seed);
      r := Ok(KeyringModel.Metadata(name, row.usage, row.algorithm, 1, row.createdAt, false));
    }

    /** The row of a new signing key. */
    method InsertSigning(row: KeyRow, ghost seed: Bytes)
      requires WellNamed(row.kid) && row.kid !in db.ring
      requires row == KeyRow(row.kid, KeyringModel.SignVerify, "ED25519", row.nonce, row.material,
                             Some(crypto.suite.public(seed)), None, row.createdAt)
      requires Open(crypto.log, DekOf(db.core), row.nonce, row.material, KeyAad(row.kid, 1)) == Some(seed) && Agrees()
      modifies db`keys, db`keyHistory, db`ring
      ensures db.ring == old(db.ring)[row.kid := KeyringModel.NewSigningKey(seed, row.createdAt)]
      ensures Agrees()
    {
      hide KeysAgree, KeyAad, PayloadAad, Ladder, Consistent, LogOf, Open, WellNamed;
      var id := FreshId(db.keys.Keys);
      AddSigningKey(crypto.suite, Snapshot(), crypto.log, DekOf(db.core), id, row, seed, row.createdAt);
      db.keys := db.keys[id := row];
      db.keyHistory := db.keyHistory[id := []];
      db.ring := db.ring[row.kid := KeyringModel.NewSigningKey(seed, row.createdAt)];
    }

    method Get(email: string, name: string) returns (r: Result<Metadata>)
      requires Valid()
      ensures r == KeyringModel.Get(Unlocked(), db.ring, KeyId(email, name))
    {
      hide KeysAgree, WrapsAgree, KeyAad, PayloadAad, Ladder, Consistent, LogOf;
      var id :- Find(email, name, None);
      var m := Describe(id);
      r := Ok(m);
    }

    /** The usable keys of an owner, in no particular order. */
    method List(email: string) returns (r: Result<set<Metadata>>)
      requires Valid()
      ensures r == KeyringModel.List(Unlocked(), db.ring, email)
    {
      hide KeysAgree, WrapsAgree, KeyAad, PayloadAad, Ladder, Consistent, LogOf;
      var _ :- state.RequireDek();
      var kids := set id | id in db.keys && db.keys[id].kid.owner == email && db.keys[id].revokedAt.None? ::
        db.keys[id].kid;
      ListedRows(crypto.suite, Snapshot(), crypto.log, DekOf(db.core), email);
      hide KeyringModel.Descriptions;
      NoDescriptions(db.ring);
      ghost var all := kids;
      var infos := {};
      assert all - kids == {};
      while kids != {}
        invariant kids <= all == KeyringModel.UsableKeys(db.ring, email)
        invariant infos == KeyringModel.Descriptions(db.ring, all - kids)
        decreases |kids|
      {
        var kid :| kid in kids;
        var id := Select(kid.owner, kid.name);
        if id.Some? {
          var info := Describe(id.value);
          infos := infos + {info};
        }
        OneMoreDescription(db.ring, all - kids, kid);
        assert all - (kids - {kid}) == all - kids + {kid};
        kids := kids - {kid};
      }
      assert all - kids == all;
      r := Ok(infos);
    }

    method Revoke(email: string, name: string, now: Time) returns (r: Result<()>)
      requires Valid()
      modifies db`keys, db`ring
      ensures Valid()
      ensures (db.ring, r) == KeyringModel.Revoke(Unlocked(), old(db.ring), KeyId(email, name))
    {
      hide KeysAgree, WrapsAgree, KeyAad, PayloadAad, Ladder, Consistent, LogOf;
      var id :- Find(email, name, None);
      RevocationKeepsMaterial(db.ring[KeyId(email, name)]);
      LaterKey(db.ring, crypto.log, KeyId(email, name), db.ring[KeyId(email, name)].(revoked := true));
      RevokeKey(crypto.suite, Snapshot(), crypto.log, DekOf(db.core), id, now);
      db.keys := db.keys[id := db.keys[id].(revokedAt := Some(now))];
      db.ring := db.ring[KeyId(email, name) := db.ring[KeyId(email, name)].(revoked := true)];
      r := Ok(());
    }

    /** The next version row, and the parent row mirroring it. */
    method AddVersion(id: int, next: int, entry: Entry, ghost material: Bytes)
      requires id in db.keys && db.keys[id].kid in db.ring && db.ring[db.keys[id].kid].AesKey?
      requires next == |db.ring[db.keys[id].kid].versions| + 1
      requires Wraps(crypto.log, DekOf(db.core), entry, KeyAad(db.keys[id].kid, next), material) && Agrees()
      modifies db`keys, db`keyVersions, db`keyHistory, db`ring
      ensures id in db.keys && db.keys[id].kid == old(db.keys[id].kid) && WellNamed(db.keys[id].kid)
      ensures db.ring == old(db.ring)[db.keys[id].kid := KeyringModel.Rotated(old(db.ring[db.keys[id].kid]), material)]
      ensures Agrees()
    {
      hide KeysAgree, WrapsAgree, KeyAad, PayloadAad, Ladder, Consistent, LogOf, Wraps;
      ghost var t, kid := Snapshot(), db.keys[id].kid;
      RowMatchesKey(crypto.suite, t, crypto.log, DekOf(db.core), id);
      var vid := FreshId(db.keyVersions.Keys);
      RotateKey(crypto.suite, t, crypto.log, DekOf(db.core), id, vid, entry, material);
      db.keys := db.keys[id := db.keys[id].(nonce := entry.nonce, material := entry.body)];
      db.keyVersions := db.keyVersions[vid := VersionRow(id, next, entry)];
      db.keyHistory := db.keyHistory[id := db.keyHistory[id] + [entry]];
      db.ring := db.ring[kid := KeyringModel.Rotated(db.ring[kid], material)];
    }

    method Rotate(email: string, name: string, material: Bytes, nonce: Nonce, now: Time) returns (r: Result<Metadata>)
      requires Valid()
      modifies db`keys, db`keyVersions, db`keyHistory, db`ring, crypto`log, crypto`calls
      ensures Valid() && TouchesOnly(old(crypto.log), crypto.log, {'k'})
      ensures AtMostOneSeal(old(crypto.calls), crypto.calls, Some(nonce))
      ensures (db.ring, r) == KeyringModel.Rotate(Unlocked(), old(db.ring), KeyId(email, name), material)
    {
      hide KeysAgree, WrapsAgree, KeyAad, PayloadAad, Ladder, Consistent, LogOf;
      var id :- Find(email, name, Some(KeyringModel.EncryptDecrypt));
      var held := state.RequireDek();
      match held {
        case Err(e) => r := Err(e);
        case Ok(dek) =>
          var kid := KeyId(email, name);
          var latest := CurrentVersion(id);
          var next := (if latest.Some? then latest.value.version else 1) + 1;
          ghost var log0, t := crypto.log, Snapshot();
          var wrapped := crypto.Encrypt(dek, nonce, material, KeyAad(kid, next));
          Engines(kid, next);
          TouchedEngine(log0, crypto.log, KeyAad(kid, next), 'k');
          GrowthKeepsKeys(crypto.suite, t, log0, crypto.log, dek);
          AddVersion(id, next, Entry(nonce, wrapped, now), material);
          RotationKeepsMaterial(t.ring[kid], material);
          NewMaterial(t.ring, log0, crypto.log, kid, KeyringModel.Rotated(t.ring[kid], material), next,
                      Box(dek, nonce, wrapped), material);
          var m := Describe(id);
          r := Ok(m);
      }
    }

    method Encrypt(email: string, name: string, plaintext64: string, nonce: Nonce) returns (r: Result<string>)
      requires Valid()
      modifies db`ring, crypto`log, crypto`calls
      ensures Valid() && TouchesOnly(old(crypto.log), crypto.log, {'t'})
      ensures AtMostOneSeal(old(crypto.calls), crypto.calls, Some(nonce))
      ensures (db.ring, r) == KeyringModel.Encrypt(crypto.suite, Unlocked(), old(db.ring), KeyId(email, name),
        plaintext64, nonce)
    {
      hide KeysAgree, WrapsAgree, KeyAad, PayloadAad, Ladder, Consistent, LogOf, Record, Envelope.Print, B64d;
      var id :- Find(email, name, Some(KeyringModel.EncryptDecrypt));
      var plaintext :- Decode(plaintext64, ValidationError);
      if |plaintext| > MAX_PAYLOAD {
        return Err(ValidationError);
      }
      var kid := KeyId(email, name);
      var latest := CurrentVersion(id);
      var version := if latest.Some? then latest.value.version else 1;
      var unwrapped := Material(id, Some(version));
      match unwrapped {
        case Err(e) => r := Err(e);
        case Ok(material) =>
          ghost var log0, t := crypto.log, Snapshot();
          var body := crypto.Encrypt(material, nonce, plaintext, PayloadAad(kid, version));
          Engines(kid, version);
          TouchedEngine(log0, crypto.log, PayloadAad(kid, version), 't');
          SealingElsewhere(t.ring, log0, crypto.log, 't');
          IssuingKeepsMaterial(t.ring[kid], Box(material, nonce, body), plaintext);
          LaterKey(t.ring, crypto.log, kid, KeyringModel.Issue(t.ring[kid], Box(material, nonce, body), plaintext));
          IssuePayload(crypto.suite, t, log0, crypto.log, DekOf(db.core), id, Box(material, nonce, body), plaintext);
          db.ring := db.ring[kid := KeyringModel.Issue(db.ring[kid], Box(material, nonce, body), plaintext)];
          r := Ok(Envelope.Print(version, name, nonce + body));
      }
    }

    method Decrypt(email: string, envelope: string) returns (r: Result<string>)
      requires Valid()
      ensures r == KeyringModel.Decrypt(Unlocked(), db.ring, email, envelope)
    {
      hide KeysAgree, WrapsAgree, KeyAad, PayloadAad, Ladder, Consistent, LogOf, B64e;
      var parsed :- Envelope.Parse(envelope);
      var id :- Find(email, parsed.name, Some(KeyringModel.EncryptDecrypt));
      var kid := KeyId(email, parsed.name);
      var material :- Material(id, Some(parsed.version));
      RowMatchesKey(crypto.suite, Snapshot(), crypto.log, DekOf(db.core), id);
      PayloadOpens(crypto.suite, Snapshot(), crypto.log, DekOf(db.core), kid, parsed.version);
      var plaintext := crypto.Decrypt(material, parsed.blob[..12], parsed.blob[12..], PayloadAad(kid, parsed.version));
      if plaintext.None? {
        return Err(DecryptionFailed);
      }
      r := Ok(B64e(plaintext.value));
    }

    method Sign(email: string, name: string, message64: string, isDigest: bool) returns (r: Result<string>)
      requires Valid()
      modifies crypto`signatures
      ensures Valid()
      ensures (crypto.signatures, r) ==
        KeyringModel.Sign(crypto.suite, Unlocked(), db.ring, old(crypto.signatures), KeyId(email, name), message64,
          isDigest)
    {
      hide KeysAgree, WrapsAgree, KeyAad, PayloadAad, Ladder, Consistent, LogOf;
      var id :- Find(email, name, Some(KeyringModel.SignVerify));
      var message :- Decode(message64, ValidationError);
      if isDigest && |message| != 32 {
        return Err(InvalidDigestLength);
      }
      var unwrapped := Material(id, None);
      match unwrapped {
        case Err(e) => r := Err(e);
        case Ok(seed) =>
          var signature := crypto.Sign(seed, message);
          r := Ok(B64e(signature));
      }
    }

    method Verify(email: string, name: string, message64: string, isDigest: bool, signature64: string,
      algorithm: Option<string>)
      returns (r: Result<bool>)
      requires Valid()
      ensures r == KeyringModel.Verify(crypto.suite, Unlocked(), db.ring, crypto.signatures, KeyId(email, name),
                                       message64, isDigest, signature64, algorithm)
    {
      hide KeysAgree, WrapsAgree, KeyAad, PayloadAad, Ladder, Consistent, LogOf;
      var id :- Find(email, name, Some(KeyringModel.SignVerify));
      var message :- Decode(message64, ValidationError);
      RowMatchesKey(crypto.suite, Snapshot(), crypto.log, DekOf(db.core), id);
      var row := db.keys[id];
      if algorithm.Some? && algorithm.value != "" && algorithm.value != row.algorithm {
        return Err(InvalidSigningAlgorithm);
      }
      if isDigest && |message| != 32 {
        return Err(InvalidDigestLength);
      }
      var signature := B64d(signature64);
      if signature.None? {
        return Ok(false);
      }
      var valid := crypto.Verify(if row.public.Some? then row.public.value else [], message, signature.value);
      r := Ok(valid);
    }
  }
}
