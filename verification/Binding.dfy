/** What every reachable set of tables looks like, and that stored ciphertexts open in their own context only. */
module Binding {
  import opened Basics
  import opened Contexts
  import opened Crypto
  import opened Versions
  import opened Database
  import opened Exchange
  import opened Router
  import KeyringModel
  import KeyTables
  import SecretTables
  import SecretsModel
  import Transit
  import Validation
  import Wrappings

  /** A sealed body opens in one context exactly. */
  lemma OpensOnlyThere(suite: Suite, calls: seq<SealCall>, key: Bytes, nonce: Nonce, body: Bytes, c: Context,
    d: Context)
    requires DistinctNonces(calls) && WellFormed(c) && WellFormed(d)
    requires Open(LogOf(suite, calls), key, nonce, body, Aad(c)).Some?
    ensures Open(LogOf(suite, calls), key, nonce, body, Aad(d)).Some? <==> d == c
  {
    hide LogOf, Aad, WellFormed;
    if d != c {
      if Aad(c) == Aad(d) {
        AadInjective(c, d);
      }
      MovedBodyFails(suite, calls, key, nonce, body, Aad(c), Aad(d));
    }
  }

  /** Whatever is in memory is the one DEK of the first `init`. */
  lemma HeldDekIsTheFirst(app: App)
    requires app.Valid() && app.state.dek.Some?
    ensures app.Ideal().core.unlocked && app.Ideal().core.master.Some?
      && app.state.dek.value == app.Ideal().core.master.value.dek
  {
    hide KeyTables.KeysAgree, Wrappings.WrapsAgree, SecretTables.SecretsAgree, LogOf, Consistent;
  }

  /** The wrapped DEK opens as nothing but the DEK. */
  lemma DekRowIsBound(app: App, d: Context)
    requires app.Valid() && app.db.core.master.Some? && DistinctNonces(app.crypto.calls) && WellFormed(d)
    ensures app.db.vaultConfig.Some?
    ensures var config, master := app.db.vaultConfig.value, app.db.core.master.value;
            Open(app.crypto.log, master.derived, config.nonce, config.wrappedDek, Aad(d)).Some? <==> d == Context.Dek
  {
    hide KeyTables.KeysAgree, Wrappings.WrapsAgree, SecretTables.SecretsAgree, LogOf, Consistent;
    var config, master := app.db.vaultConfig.value, app.db.core.master.value;
    OpensOnlyThere(app.crypto.suite, app.crypto.calls, master.derived, config.nonce, config.wrappedDek, Context.Dek, d);
  }

  function VersionsOf(t: VersionTable, parent: int): set<int> {
    set id | id in t && t[id].parent == parent :: t[id].version
  }

  /** The one version row of a parent and version. */
  lemma RowOfVersion(t: VersionTable, h: History, parent: int, version: int) returns (id: int)
    requires Ladder(t, h) && parent in h && 1 <= version <= |h[parent]|
    ensures id in t && t[id] == VersionRow(parent, version, h[parent][version - 1])
  {
    assert HasRow(t, parent, version);
    id :| id in t && t[id].parent == parent && t[id].version == version;
  }

  /** The version rows of a parent are exactly 1..n, each once. */
  ghost predicate ExactlyUpTo(t: VersionTable, parent: int, n: nat) {
    && (forall v :: v in VersionsOf(t, parent) <==> 1 <= v <= n)
    && forall i, j | i in t && j in t && t[i].parent == t[j].parent == parent && t[i].version == t[j].version :: i == j
  }

  ghost predicate Mirrors(t: VersionTable, vid: int, parent: int, row: KeyRow, version: int) {
    vid in t && t[vid] == VersionRow(parent, version, t[vid].entry) && t[vid].entry.nonce == row.nonce
      && t[vid].entry.body == row.material
  }

  lemma LadderVersions(t: VersionTable, h: History, parent: int)
    requires Ladder(t, h) && parent in h
    ensures ExactlyUpTo(t, parent, |h[parent]|)
  {
    forall v | 1 <= v <= |h[parent]| ensures v in VersionsOf(t, parent) {
      var id := RowOfVersion(t, h, parent, v);
    }
  }

  /**
   A key's version rows are exactly 1..n with the parent row mirroring row n; a signing key has none. So an
   AES key never falls back to its parent row.
   */
  lemma VersionLadder(app: App, id: int)
    requires app.Valid() && id in app.db.keys
    ensures app.db.keys[id].kid in app.db.ring
    ensures var row, key := app.db.keys[id], app.db.ring[app.db.keys[id].kid];
            if key.AesKey? then
              && row.usage == KeyringModel.EncryptDecrypt
              && ExactlyUpTo(app.db.keyVersions, id, |key.versions|)
              && (exists vid :: Mirrors(app.db.keyVersions, vid, id, row, |key.versions|))
            else row.usage == KeyringModel.SignVerify && ExactlyUpTo(app.db.keyVersions, id, 0)
  {
    hide KeyTables.KeysAgree, Wrappings.WrapsAgree, SecretTables.SecretsAgree, LogOf, Consistent, Ladder;
    var t, dek := app.Keyring(), Transit.DekOf(app.db.core);
    KeyTables.RowMatchesKey(app.crypto.suite, t, app.crypto.log, dek, id);
    LadderVersions(t.versions, t.history, id);
    NewestIsMirrored(app.crypto.suite, t, app.crypto.log, dek, id);
    if t.ring[t.rows[id].kid].AesKey? {
      var vid := RowOfVersion(t.versions, t.history, id, |t.history[id]|);
      assert Mirrors(t.versions, vid, id, t.rows[id], |t.history[id]|);
    }
  }

  lemma NewestIsMirrored(suite: Suite, t: KeyTables.KeyTables, log: SealLog, dek: Bytes, id: int)
    requires KeyTables.KeysAgree(suite, t, log, dek) && id in t.rows
    ensures id in t.history && t.rows[id].kid in t.ring
    ensures t.ring[t.rows[id].kid].AesKey? ==> var n := |t.history[id]|;
              n > 0 && t.rows[id].nonce == t.history[id][n - 1].nonce
                && t.rows[id].material == t.history[id][n - 1].body
  {
    KeyTables.RowHasKey(t, id);
  }

  /** A stored key version opens under the DEK in the context of its own owner, name and version, and nowhere else. */
  lemma KeyVersionRowIsBound(app: App, vid: int, d: Context)
    requires app.Valid() && vid in app.db.keyVersions && DistinctNonces(app.crypto.calls) && WellFormed(d)
    ensures app.db.keyVersions[vid].parent in app.db.keys
    ensures var row := app.db.keyVersions[vid];
            var found := Open(app.crypto.log, Transit.DekOf(app.db.core), row.entry.nonce, row.entry.body, Aad(d));
            found.Some? <==> d == Wrapped(app.db.keys[row.parent].kid, row.version)
  {
    hide KeyTables.KeysAgree, Wrappings.WrapsAgree, SecretTables.SecretsAgree, LogOf, Consistent, Aad;
    var t, dek, row := app.Keyring(), Transit.DekOf(app.db.core), app.db.keyVersions[vid];
    KeyVersionOpens(app.crypto.suite, t, app.crypto.log, dek, vid);
    var c := Wrapped(t.rows[row.parent].kid, row.version);
    OpensOnlyThere(app.crypto.suite, app.crypto.calls, dek, row.entry.nonce, row.entry.body, c, d);
  }

  lemma KeyVersionOpens(suite: Suite, t: KeyTables.KeyTables, log: SealLog, dek: Bytes, vid: int)
    requires KeyTables.KeysAgree(suite, t, log, dek) && vid in t.versions
    ensures var row := t.versions[vid];
            && row.parent in t.rows && row.version >= 1
            && WellFormed(Wrapped(t.rows[row.parent].kid, row.version))
            && Open(log, dek, row.entry.nonce, row.entry.body, Aad(Wrapped(t.rows[row.parent].kid, row.version))).Some?
  {
    var row := t.versions[vid];
    KeyTables.RowHasKey(t, row.parent);
    KeyTables.RowMatchesKey(suite, t, log, dek, row.parent);
    KeyTables.MaterialOpens(suite, t, log, dek, row.parent, row.version);
  }

  /** The private key of a signing key likewise. */
  lemma SigningRowIsBound(app: App, id: int, d: Context)
    requires app.Valid() && id in app.db.keys && app.db.keys[id].usage == KeyringModel.SignVerify
    requires DistinctNonces(app.crypto.calls) && WellFormed(d)
    ensures var row := app.db.keys[id];
            var found := Open(app.crypto.log, Transit.DekOf(app.db.core), row.nonce, row.material, Aad(d));
            found.Some? <==> d == Wrapped(row.kid, 1)
  {
    hide KeyTables.KeysAgree, Wrappings.WrapsAgree, SecretTables.SecretsAgree, LogOf, Consistent, KeyAad;
    var t, dek, row := app.Keyring(), Transit.DekOf(app.db.core), app.db.keys[id];
    KeyTables.RowMatchesKey(app.crypto.suite, t, app.crypto.log, dek, id);
    KeyTables.MaterialOpens(app.crypto.suite, t, app.crypto.log, dek, id, 1);
    OpensOnlyThere(app.crypto.suite, app.crypto.calls, dek, row.nonce, row.material, Wrapped(row.kid, 1), d);
  }

  /** What `_material` unwraps from a signing key's row is the private key of the public key beside it. */
  lemma KeyPairsMatch(app: App, id: int)
    requires app.Valid() && id in app.db.keys && app.db.keys[id].usage == KeyringModel.SignVerify
    ensures var row := app.db.keys[id];
            var seed := Open(app.crypto.log, Transit.DekOf(app.db.core), row.nonce, row.material, KeyAad(row.kid, 1));
            seed.Some? && row.public == Some(app.crypto.suite.public(seed.value))
  {
    hide KeyTables.KeysAgree, Wrappings.WrapsAgree, SecretTables.SecretsAgree, LogOf, Consistent, KeyAad;
    var t, dek := app.Keyring(), Transit.DekOf(app.db.core);
    KeyTables.RowMatchesKey(app.crypto.suite, t, app.crypto.log, dek, id);
    KeyTables.MaterialOpens(app.crypto.suite, t, app.crypto.log, dek, id, 1);
  }

  /** A payload that a key version issued opens for that owner, name and version, and nowhere else. */
  lemma PayloadIsBound(app: App, kid: KeyId, version: nat, box: Box, d: Context)
    requires app.Valid() && WellNamed(kid) && version >= 1 && box in KeyTables.Issued(app.db.ring, kid, version)
    requires DistinctNonces(app.crypto.calls) && WellFormed(d)
    ensures Open(app.crypto.log, box.key, box.nonce, box.body, Aad(d)).Some? <==> d == Payload(kid, version)
  {
    hide KeyTables.KeysAgree, Wrappings.WrapsAgree, SecretTables.SecretsAgree, LogOf, Consistent, PayloadAad;
    KeyTables.PayloadOpens(app.crypto.suite, app.Keyring(), app.crypto.log, Transit.DekOf(app.db.core), kid, version);
    OpensOnlyThere(app.crypto.suite, app.crypto.calls, box.key, box.nonce, box.body, Payload(kid, version), d);
  }

  /** A stored secret version opens under the DEK at its own path, and nowhere else. */
  lemma SecretVersionRowIsBound(app: App, vid: int, d: Context)
    requires app.Valid() && vid in app.db.secretVersions && DistinctNonces(app.crypto.calls) && WellFormed(d)
    ensures app.db.secretVersions[vid].parent in app.db.secrets
    ensures var row := app.db.secretVersions[vid];
            var found := Open(app.crypto.log, Transit.DekOf(app.db.core), row.entry.nonce, row.entry.body, Aad(d));
            found.Some? <==> d == Context.Secret(app.db.secrets[row.parent].path)
  {
    hide KeyTables.KeysAgree, Wrappings.WrapsAgree, SecretTables.SecretsAgree, LogOf, Consistent, Validation.Owns;
    var t, dek, row := app.Secrets(), Transit.DekOf(app.db.core), app.db.secretVersions[vid];
    SecretVersionOpens(t, app.crypto.log, dek, vid);
    OpensOnlyThere(app.crypto.suite, app.crypto.calls, dek, row.entry.nonce, row.entry.body,
                   Context.Secret(t.rows[row.parent].path), d);
  }

  lemma SecretVersionOpens(t: SecretTables.SecretTables, log: SealLog, dek: Bytes, vid: int)
    requires SecretTables.SecretsAgree(t, log, dek) && vid in t.versions
    ensures var row := t.versions[vid];
            && row.parent in t.rows && WellFormed(Context.Secret(t.rows[row.parent].path))
            && Validation.ValidEmail(t.rows[row.parent].owner)
              && Validation.Owns(t.rows[row.parent].owner, t.rows[row.parent].path)
            && Open(log, dek, row.entry.nonce, row.entry.body, t.rows[row.parent].path).Some?
  {
    var row := t.versions[vid];
    SecretTables.RowMatches(t, log, dek, row.parent);
  }

  /**
   The binding stops at the path. Exchange the stored ciphertexts of any two versions of a path, the parent's
   copy with them: the tables are as valid as before, and what `read` answers over valid tables, asked for the
   one version, is the other one's value.
   */
  lemma VersionsOfAPathInterchange(app: App, vid: int, wid: int)
    requires app.Valid() && vid in app.db.secretVersions && wid in app.db.secretVersions
    requires app.db.secretVersions[vid].parent == app.db.secretVersions[wid].parent
    ensures app.db.secretVersions[vid].parent in app.db.secrets
    ensures var t, t' := app.Secrets(), Exchanged(app.Secrets(), vid, wid);
            var row, v, w := t.rows[t.versions[vid].parent], t.versions[vid].version, t.versions[wid].version;
            && SecretTables.SecretsAgree(t', app.crypto.log, Transit.DekOf(app.db.core))
            && row.path in t.values && 1 <= w <= |t.values[row.path]|
            && SecretsModel.Read(true, t'.values, row.path, row.owner, Some(v))
               == Ok(SecretsModel.Reading(row.path, v, t.values[row.path][w - 1].data))
  {
    hide KeyTables.KeysAgree, Wrappings.WrapsAgree, SecretTables.SecretsAgree, LogOf, Consistent, Exchanged,
      Validation.ValidatePath;
    var t, dek := app.Secrets(), Transit.DekOf(app.db.core);
    ExchangeGoesUnnoticed(t, app.crypto.log, dek, vid, wid);
    SecretTables.RowMatches(t, app.crypto.log, dek, t.versions[vid].parent);
  }

  /**
   Beyond exchanges: whatever anybody puts into the rows, and under whatever key bytes, nothing opens in the
   payload context of a key version but the boxes which that version issued, each to what it was issued for.
   So `decrypt` cannot be made to return bytes that were not encrypted under that very name and version.
   */
  lemma PayloadsAreAuthentic(app: App, key: Bytes, nonce: Nonce, body: Bytes, kid: KeyId, version: nat)
    requires app.Valid() && WellNamed(kid) && version >= 1
    ensures var box, issued := Box(key, nonce, body), KeyTables.Issued(app.db.ring, kid, version);
            Open(app.crypto.log, key, nonce, body, PayloadAad(kid, version)) ==
              if box in issued then Some(issued[box]) else None
  {
    hide KeyTables.KeysAgree, Wrappings.WrapsAgree, SecretTables.SecretsAgree, LogOf, Consistent, PayloadAad,
      KeyTables.Issued;
    var t, dek := app.Keyring(), Transit.DekOf(app.db.core);
    KeyTables.PayloadOpens(app.crypto.suite, t, app.crypto.log, dek, kid, version);
  }

  /**
   Nor does anything open as a wrapped key but the material which that version of that key really has: forged
   rows make unwrapping fail or change nothing.
   */
  lemma WrappedKeysAreAuthentic(app: App, key: Bytes, nonce: Nonce, body: Bytes, kid: KeyId, version: nat)
    requires app.Valid() && WellNamed(kid) && version >= 1
    ensures var found := Open(app.crypto.log, key, nonce, body, KeyAad(kid, version));
            found.Some? ==> kid in app.db.ring && Wrappings.MaterialAt(app.db.ring[kid], version) == found
  {
    hide KeyTables.KeysAgree, Wrappings.WrapsAgree, SecretTables.SecretsAgree, LogOf, Consistent, KeyAad, WellNamed;
    if Open(app.crypto.log, key, nonce, body, KeyAad(kid, version)).Some? {
      Wrappings.OpenedIsGenuine(app.db.ring, app.crypto.log, kid, version, Box(key, nonce, body));
    }
  }

  /** Nor as the DEK but the one DEK: over a forged configuration row `unlock` fails or yields the same key. */
  lemma WrappedDekIsAuthentic(app: App, key: Bytes, nonce: Nonce, body: Bytes)
    requires app.Valid()
    ensures var found := Open(app.crypto.log, key, nonce, body, DEK_AAD);
            found.Some? ==>
              && app.db.core.master.Some? && found == Some(app.db.core.master.value.dek)
              && key == app.db.core.master.value.derived
  {
    hide KeyTables.KeysAgree, Wrappings.WrapsAgree, SecretTables.SecretsAgree, LogOf, Consistent;
  }

  /** A secret's owner is the one its path names: no other address is accepted for it. */
  lemma OwnerIsNamedByPath(app: App, id: int, email: string)
    requires app.Valid() && id in app.db.secrets && Validation.ValidEmail(email)
    ensures Validation.Owns(email, app.db.secrets[id].path) <==> email == app.db.secrets[id].owner
  {
    hide KeyTables.KeysAgree, Wrappings.WrapsAgree, SecretTables.SecretsAgree, LogOf, Consistent, Validation.Owns,
      Validation.ValidEmail;
    SecretTables.RowMatches(app.Secrets(), app.crypto.log, Transit.DekOf(app.db.core), id);
    if Validation.Owns(email, app.db.secrets[id].path) {
      Validation.OwnerIsUnique(app.db.secrets[id].path, email, app.db.secrets[id].owner);
    }
  }
}
