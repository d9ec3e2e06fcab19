/** How the rows of the transit tables and the seal log stand for a keyring. */
module KeyTables {
  import opened Basics
  import opened Contexts
  import opened Crypto
  import opened Versions
  import opened Database
  import opened Index
  import opened KeyringModel

  /** The two tables, the histories in the version table, and the keyring they stand for. */
  datatype KeyTables = KeyTables(rows: map<int, KeyRow>, versions: VersionTable, history: History, ring: Keyring)

  ghost function Names(rows: map<int, KeyRow>): map<int, KeyId> {
    map id | id in rows :: rows[id].kid
  }

  /** One row per key and one key per row. */
  ghost predicate Named(names: map<int, KeyId>, kids: set<KeyId>) {
    Unique(names, kids) && forall id | id in names :: WellNamed(names[id])
  }

  ghost predicate Tabulated(t: KeyTables) {
    Named(Names(t.rows), t.ring.Keys) && Ladder(t.versions, t.history) && t.history.Keys == t.rows.Keys
  }

  ghost predicate Wraps(log: SealLog, dek: Bytes, entry: Entry, aad: string, material: Bytes) {
    Open(log, dek, entry.nonce, entry.body, aad) == Some(material)
  }

  /** Every version is wrapped under the associated data that reading it back will use. */
  ghost predicate AesRowAgrees(row: KeyRow, entries: seq<Entry>, versions: KeyVersions, log: SealLog, dek: Bytes) {
    && |entries| == |versions|
    && row.nonce == entries[|entries| - 1].nonce && row.material == entries[|entries| - 1].body
    && forall v: nat | 1 <= v <= |versions| ::
      Wraps(log, dek, entries[v - 1], KeyAad(row.kid, v), versions[v - 1].material)
  }

  ghost predicate SigningRowAgrees(suite: Suite, row: KeyRow, entries: seq<Entry>, seed: Bytes, log: SealLog,
    dek: Bytes)
  {
    && entries == []
    && row.public == Some(suite.public(seed))
    && Open(log, dek, row.nonce, row.material, KeyAad(row.kid, 1)) == Some(seed)
  }

  ghost predicate RowAgrees(suite: Suite, row: KeyRow, entries: seq<Entry>, key: Key, log: SealLog, dek: Bytes) {
    && row.usage == key.Usage() && row.algorithm == key.Algorithm() && row.createdAt == key.createdAt
    && (row.revokedAt.Some? <==> key.revoked)
    && (key.AesKey? ==> AesRowAgrees(row, entries, key.versions, log, dek))
    && (key.SigningKey? ==> SigningRowAgrees(suite, row, entries, key.seed, log, dek))
  }

  ghost predicate RowsAgree(suite: Suite, t: KeyTables, log: SealLog, dek: Bytes)
    requires Tabulated(t)
  {
    forall id | id in t.rows ::
      t.rows[id].kid in t.ring && RowAgrees(suite, t.rows[id], t.history[id], t.ring[t.rows[id].kid], log, dek)
  }

  ghost function Issued(ring: Keyring, kid: KeyId, version: nat): map<Box, Bytes> {
    if kid in ring then IssuedBy(ring[kid], version) else map[]
  }

  /** What opens in the payload context of a key version is exactly what that version issued. */
  ghost predicate PayloadsAgree(ring: Keyring, log: SealLog) {
    forall kid, version: nat | WellNamed(kid) && version >= 1 ::
      At(log, PayloadAad(kid, version)) == Issued(ring, kid, version)
  }

  ghost predicate KeysAgree(suite: Suite, t: KeyTables, log: SealLog, dek: Bytes) {
    Tabulated(t) && RowsAgree(suite, t, log, dek) && PayloadsAgree(t.ring, log)
  }

  /** Empty tables stand for the empty keyring. */
  lemma NoKeysAgree(suite: Suite, dek: Bytes)
    ensures KeysAgree(suite, KeyTables(map[], map[], map[], map[]), map[], dek)
  {
    hide WellNamed, PayloadAad;
  }

  /** Sealing elsewhere does not disturb the keys. */
  lemma GrowthKeepsKeys(suite: Suite, t: KeyTables, log: SealLog, log': SealLog, dek: Bytes)
    requires KeysAgree(suite, t, log, dek) && Grows(log, log')
    requires forall a | Engine(a) == 't' :: At(log', a) == At(log, a)
    ensures KeysAgree(suite, t, log', dek)
  {
    forall kid, v: nat | WellNamed(kid) && v >= 1
      ensures At(log', PayloadAad(kid, v)) == At(log, PayloadAad(kid, v))
    {
      assert Engine(PayloadAad(kid, v)) == 't';
    }
    GrowthKeepsRows(suite, t, log, log', dek);
  }

  lemma GrowthKeepsRows(suite: Suite, t: KeyTables, log: SealLog, log': SealLog, dek: Bytes)
    requires Tabulated(t) && RowsAgree(suite, t, log, dek) && Grows(log, log')
    ensures RowsAgree(suite, t, log', dek)
  {
    hide RowAgrees;
    forall id | id in t.rows
      ensures RowAgrees(suite, t.rows[id], t.history[id], t.ring[t.rows[id].kid], log', dek)
    {
      GrowthKeepsRow(suite, t.rows[id], t.history[id], t.ring[t.rows[id].kid], log, log', dek);
    }
  }

  lemma GrowthKeepsRow(suite: Suite, row: KeyRow, entries: seq<Entry>, key: Key, log: SealLog, log': SealLog,
    dek: Bytes)
    requires RowAgrees(suite, row, entries, key, log, dek) && Grows(log, log')
    ensures RowAgrees(suite, row, entries, key, log', dek)
  {
    if key.AesKey? {
      forall v: nat | 1 <= v <= |key.versions|
        ensures Wraps(log', dek, entries[v - 1], KeyAad(row.kid, v), key.versions[v - 1].material)
      {
        assert Wraps(log, dek, entries[v - 1], KeyAad(row.kid, v), key.versions[v - 1].material);
      }
    }
  }

  /** A row is replaced by one of the same name. */
  lemma SameNames(rows: map<int, KeyRow>, id: int, row: KeyRow)
    requires id in rows && row.kid == rows[id].kid
    ensures Names(rows[id := row]) == Names(rows)
  {
    var rows' := rows[id := row];
    var names, names' := Names(rows), Names(rows');
    assert forall i | i in rows :: rows'[i].kid == rows[i].kid;
    assert names'.Keys == names.Keys;
    assert forall i | i in names :: names'[i] == names[i];
  }

  lemma NamesDiffer(t: KeyTables, id: int)
    requires Tabulated(t) && id in t.rows
    ensures forall i | i in t.rows && i != id :: t.rows[i].kid in t.ring && t.rows[i].kid != t.rows[id].kid
  {
    forall i | i in t.rows && i != id ensures t.rows[i].kid in t.ring && t.rows[i].kid != t.rows[id].kid {
      assert Names(t.rows)[i] == t.rows[i].kid && Names(t.rows)[id] == t.rows[id].kid;
    }
  }

  lemma RowHasKey(t: KeyTables, id: int)
    requires Tabulated(t) && id in t.rows
    ensures t.rows[id].kid in t.ring && WellNamed(t.rows[id].kid) && id in t.history
  {
    assert Names(t.rows)[id] == t.rows[id].kid;
  }

  /** All rows agree when the touched one does and the others kept their row, history and key. */
  lemma OtherRowsAgree(suite: Suite, t: KeyTables, t': KeyTables, log: SealLog, dek: Bytes, id: int)
    requires Tabulated(t) && RowsAgree(suite, t, log, dek) && Tabulated(t')
    requires id in t'.rows && t'.rows[id].kid in t'.ring
      && RowAgrees(suite, t'.rows[id], t'.history[id], t'.ring[t'.rows[id].kid], log, dek)
    requires forall i | i in t'.rows && i != id ::
      && i in t.rows && t'.rows[i] == t.rows[i] && t'.history[i] == t.history[i]
      && t.rows[i].kid in t'.ring && t'.ring[t.rows[i].kid] == t.ring[t.rows[i].kid]
    ensures RowsAgree(suite, t', log, dek)
  {
    hide RowAgrees;
  }

  ghost function IssuedBy(key: Key, version: nat): map<Box, Bytes> {
    if key.AesKey? && 1 <= version <= |key.versions| then key.versions[version - 1].issued else map[]
  }

  /** A key that is new or replaced without losing or gaining a payload. */
  lemma SamePayloads(ring: Keyring, log: SealLog, kid: KeyId, key: Key)
    requires PayloadsAgree(ring, log)
    requires forall v: nat :: IssuedBy(key, v) == Issued(ring, kid, v)
    ensures PayloadsAgree(ring[kid := key], log)
  {
    forall k, v: nat | WellNamed(k) && v >= 1
      ensures At(log, PayloadAad(k, v)) == Issued(ring[kid := key], k, v)
    {
      if k == kid {
        assert Issued(ring[kid := key], k, v) == IssuedBy(key, v);
      } else {
        assert Issued(ring[kid := key], k, v) == Issued(ring, k, v);
      }
    }
  }

  lemma RotationIssuesNothing(key: Key, material: Bytes, version: nat)
    requires key.AesKey?
    ensures IssuedBy(Rotated(key, material), version) == IssuedBy(key, version)
  {
    var versions' := Rotated(key, material).versions;
    assert forall i | 0 <= i < |key.versions| :: versions'[i] == key.versions[i];
  }

  lemma AddedName(rows: map<int, KeyRow>, id: int, row: KeyRow)
    ensures Names(rows[id := row]) == Names(rows)[id := row.kid] && Names(rows).Keys == rows.Keys
  {
  }

  lemma AddedTable(t: KeyTables, id: int, row: KeyRow, key: Key, entries: seq<Entry>, versions': VersionTable)
    requires Tabulated(t) && id !in t.rows && WellNamed(row.kid) && row.kid !in t.ring
    requires Ladder(versions', t.history[id := entries])
    ensures Tabulated(KeyTables(t.rows[id := row], versions', t.history[id := entries], t.ring[row.kid := key]))
    ensures t.history.Keys == t.rows.Keys
    ensures forall i | i in t.rows :: t.rows[i].kid in t.ring && t.rows[i].kid != row.kid
  {
    hide Ladder, WellNamed;
    forall i | i in t.rows ensures t.rows[i].kid in t.ring {
      RowHasKey(t, i);
    }
    hide Names, Unique;
    Added(Names(t.rows), t.ring.Keys, id, row.kid);
    AddedName(t.rows, id, row);
    assert t.ring[row.kid := key].Keys == t.ring.Keys + {row.kid};
  }

  lemma AddedRows(suite: Suite, t: KeyTables, log: SealLog, dek: Bytes, id: int, row: KeyRow, key: Key,
    entries: seq<Entry>, versions': VersionTable)
    requires Tabulated(t) && RowsAgree(suite, t, log, dek) && id !in t.rows && WellNamed(row.kid) && row.kid !in t.ring
    requires RowAgrees(suite, row, entries, key, log, dek) && Ladder(versions', t.history[id := entries])
    ensures var t' := KeyTables(t.rows[id := row], versions', t.history[id := entries], t.ring[row.kid := key]);
            Tabulated(t') && RowsAgree(suite, t', log, dek)
  {
    hide RowAgrees, Ladder, WellNamed;
    var t' := KeyTables(t.rows[id := row], versions', t.history[id := entries], t.ring[row.kid := key]);
    AddedTable(t, id, row, key, entries, versions');
    hide Tabulated;
    OtherRowsAgree(suite, t, t', log, dek, id);
  }

  /** Adding a key: its row, its history (none for a signing key) and its version rows. */
  lemma AddKey(suite: Suite, t: KeyTables, log: SealLog, dek: Bytes, id: int, row: KeyRow, key: Key,
    entries: seq<Entry>, versions': VersionTable)
    requires KeysAgree(suite, t, log, dek) && id !in t.rows && WellNamed(row.kid) && row.kid !in t.ring
    requires forall v: nat :: IssuedBy(key, v) == map[]
    requires RowAgrees(suite, row, entries, key, log, dek) && Ladder(versions', t.history[id := entries])
    ensures KeysAgree(suite, KeyTables(t.rows[id := row], versions', t.history[id := entries], t.ring[row.kid := key]),
      log, dek)
  {
    hide RowAgrees, Ladder, WellNamed, Tabulated, RowsAgree, PayloadsAgree, IssuedBy;
    AddedRows(suite, t, log, dek, id, row, key, entries, versions');
    SamePayloads(t.ring, log, row.kid, key);
  }

  /** A new AES key gets its row and its first version row. */
  lemma AddAesKey(suite: Suite, t: KeyTables, log: SealLog, dek: Bytes, id: int, row: KeyRow, vid: int, entry: Entry,
    material: Bytes, now: Time)
    requires KeysAgree(suite, t, log, dek) && id !in t.rows && vid !in t.versions
    requires WellNamed(row.kid) && row.kid !in t.ring
    requires row == KeyRow(row.kid, EncryptDecrypt, "AES-256-GCM", entry.nonce, entry.body, None, None, now)
    requires Wraps(log, dek, entry, KeyAad(row.kid, 1), material)
    ensures KeysAgree(suite, KeyTables(t.rows[id := row], t.versions[vid := VersionRow(id, 1, entry)],
      t.history[id := [entry]],
                                       t.ring[row.kid := NewAesKey(material, now)]), log, dek)
  {
    hide RowAgrees, RowsAgree, PayloadsAgree, Named, Ladder;
    FirstVersionKeepsLadder(t.versions, t.history, id, vid, entry);
    NewAesRowAgrees(suite, row, entry, material, now, log, dek);
    AddKey(suite, t, log, dek, id, row, NewAesKey(material, now), [entry], t.versions[vid := VersionRow(id, 1, entry)]);
  }

  /** A new signing key gets its row and no version rows. */
  lemma AddSigningKey(suite: Suite, t: KeyTables, log: SealLog, dek: Bytes, id: int, row: KeyRow, seed: Bytes,
    now: Time)
    requires KeysAgree(suite, t, log, dek) && id !in t.rows && WellNamed(row.kid) && row.kid !in t.ring
    requires row == KeyRow(row.kid, SignVerify, "ED25519", row.nonce, row.material, Some(suite.public(seed)), None, now)
    requires Open(log, dek, row.nonce, row.material, KeyAad(row.kid, 1)) == Some(seed)
    ensures KeysAgree(suite, KeyTables(t.rows[id := row], t.versions, t.history[id := []],
                                       t.ring[row.kid := NewSigningKey(seed, now)]), log, dek)
  {
    NewParentKeepsLadder(t.versions, t.history, id);
    NewSigningRowAgrees(suite, row, seed, now, log, dek);
    AddKey(suite, t, log, dek, id, row, NewSigningKey(seed, now), [], t.versions);
  }

  lemma ReplacedTable(t: KeyTables, id: int, row: KeyRow, key: Key, entries: seq<Entry>, versions': VersionTable)
    requires Tabulated(t) && id in t.rows && row.kid == t.rows[id].kid
    requires Ladder(versions', t.history[id := entries])
    ensures id in t.history && row.kid in t.ring && WellNamed(row.kid)
    ensures Tabulated(KeyTables(t.rows[id := row], versions', t.history[id := entries], t.ring[row.kid := key]))
    ensures forall i | i in t.rows && i != id :: t.rows[i].kid in t.ring && t.rows[i].kid != row.kid
  {
    hide Ladder;
    RowHasKey(t, id);
    NamesDiffer(t, id);
    SameNames(t.rows, id, row);
    assert t.ring[row.kid := key].Keys == t.ring.Keys;
  }

  lemma ReplacedRows(suite: Suite, t: KeyTables, log: SealLog, dek: Bytes, id: int, row: KeyRow, key: Key,
    entries: seq<Entry>, versions': VersionTable)
    requires Tabulated(t) && RowsAgree(suite, t, log, dek) && id in t.rows && row.kid == t.rows[id].kid
    requires RowAgrees(suite, row, entries, key, log, dek) && Ladder(versions', t.history[id := entries])
    ensures var t' := KeyTables(t.rows[id := row], versions', t.history[id := entries], t.ring[row.kid := key]);
            Tabulated(t') && RowsAgree(suite, t', log, dek)
  {
    hide RowAgrees, Ladder;
    var t' := KeyTables(t.rows[id := row], versions', t.history[id := entries], t.ring[row.kid := key]);
    ReplacedTable(t, id, row, key, entries, versions');
    OtherRowsAgree(suite, t, t', log, dek, id);
  }

  /** Replacing a row, its history and its key together, no payload lost or gained. */
  lemma ReplaceKey(suite: Suite, t: KeyTables, log: SealLog, dek: Bytes, id: int, row: KeyRow, key: Key,
    entries: seq<Entry>, versions': VersionTable)
    requires KeysAgree(suite, t, log, dek) && id in t.rows && row.kid == t.rows[id].kid
    requires RowAgrees(suite, row, entries, key, log, dek) && Ladder(versions', t.history[id := entries])
    requires forall v: nat :: IssuedBy(key, v) == Issued(t.ring, row.kid, v)
    ensures KeysAgree(suite, KeyTables(t.rows[id := row], versions', t.history[id := entries], t.ring[row.kid := key]),
      log, dek)
  {
    hide RowAgrees, Ladder;
    ReplacedRows(suite, t, log, dek, id, row, key, entries, versions');
    SamePayloads(t.ring, log, row.kid, key);
  }

  lemma RevokeKey(suite: Suite, t: KeyTables, log: SealLog, dek: Bytes, id: int, at: Time)
    requires KeysAgree(suite, t, log, dek) && id in t.rows && t.rows[id].kid in t.ring
    ensures var kid := t.rows[id].kid;
            KeysAgree(suite, KeyTables(t.rows[id := t.rows[id].(revokedAt := Some(at))], t.versions, t.history,
                                       t.ring[kid := t.ring[kid].(revoked := true)]), log, dek)
  {
    hide RowAgrees, Ladder;
    var kid := t.rows[id].kid;
    var row, key := t.rows[id].(revokedAt := Some(at)), t.ring[kid].(revoked := true);
    RevokedRowAgrees(suite, t.rows[id], t.history[id], t.ring[kid], log, dek, at);
    assert t.history[id := t.history[id]] == t.history;
    ReplaceKey(suite, t, log, dek, id, row, key, t.history[id], t.versions);
  }

  lemma RevokedRowAgrees(suite: Suite, row: KeyRow, entries: seq<Entry>, key: Key, log: SealLog, dek: Bytes, at: Time)
    requires RowAgrees(suite, row, entries, key, log, dek)
    ensures RowAgrees(suite, row.(revokedAt := Some(at)), entries, key.(revoked := true), log, dek)
  {
  }

  /** The newest version of a key seals a payload. */
  lemma IssuePayload(suite: Suite, t: KeyTables, log: SealLog, log': SealLog, dek: Bytes, id: int, box: Box,
    plaintext: Bytes)
    requires KeysAgree(suite, t, log, dek) && id in t.rows && t.rows[id].kid in t.ring && t.ring[t.rows[id].kid].AesKey?
    requires Grows(log, log')
    requires var kid := t.rows[id].kid;
             log' == Record(log, PayloadAad(kid, |t.ring[kid].versions|), box, plaintext)
    ensures var kid := t.rows[id].kid;
            KeysAgree(suite, t.(ring := t.ring[kid := Issue(t.ring[kid], box, plaintext)]), log', dek)
  {
    var row := t.rows[id];
    var kid := row.kid;
    RowHasKey(t, id);
    IssuedPayloads(t.ring, log, kid, box, plaintext);
    IssuedRows(suite, t, log, log', dek, id, box, plaintext);
  }

  lemma IssuedRows(suite: Suite, t: KeyTables, log: SealLog, log': SealLog, dek: Bytes, id: int, box: Box,
    plaintext: Bytes)
    requires Tabulated(t) && RowsAgree(suite, t, log, dek) && Grows(log, log')
    requires id in t.rows && t.rows[id].kid in t.ring && t.ring[t.rows[id].kid].AesKey?
    ensures var kid := t.rows[id].kid;
            var t' := t.(ring := t.ring[kid := Issue(t.ring[kid], box, plaintext)]);
            Tabulated(t') && RowsAgree(suite, t', log', dek)
  {
    hide RowAgrees, Ladder;
    var row := t.rows[id];
    var key := t.ring[row.kid];
    GrowthKeepsRows(suite, t, log, log', dek);
    IssuingRowAgrees(suite, row, t.history[id], key, log', dek, box, plaintext);
    assert t.rows[id := row] == t.rows && t.history[id := t.history[id]] == t.history;
    ReplacedRows(suite, t, log', dek, id, row, Issue(key, box, plaintext), t.history[id], t.versions);
  }

  lemma IssuingRowAgrees(suite: Suite, row: KeyRow, entries: seq<Entry>, key: Key, log: SealLog, dek: Bytes, box: Box,
    plaintext: Bytes)
    requires RowAgrees(suite, row, entries, key, log, dek) && key.AesKey?
    ensures RowAgrees(suite, row, entries, Issue(key, box, plaintext), log, dek)
  {
    var key' := Issue(key, box, plaintext);
    forall v: nat | 1 <= v <= |key'.versions|
      ensures Wraps(log, dek, entries[v - 1], KeyAad(row.kid, v), key'.versions[v - 1].material)
    {
      assert Wraps(log, dek, entries[v - 1], KeyAad(row.kid, v), key.versions[v - 1].material);
    }
  }

  lemma IssuedPayloads(ring: Keyring, log: SealLog, kid: KeyId, box: Box, plaintext: Bytes)
    requires PayloadsAgree(ring, log) && kid in ring && ring[kid].AesKey? && WellNamed(kid)
    ensures PayloadsAgree(ring[kid := Issue(ring[kid], box, plaintext)],
                          Record(log, PayloadAad(kid, |ring[kid].versions|), box, plaintext))
  {
    var n := |ring[kid].versions|;
    var ring' := ring[kid := Issue(ring[kid], box, plaintext)];
    var log' := Record(log, PayloadAad(kid, n), box, plaintext);
    forall k, v: nat | WellNamed(k) && v >= 1
      ensures At(log', PayloadAad(k, v)) == Issued(ring', k, v)
    {
      assert At(log, PayloadAad(k, v)) == Issued(ring, k, v);
      if PayloadAad(k, v) == PayloadAad(kid, n) {
        PayloadAadInjective(k, v, kid, n);
      }
    }
  }

  /** One more version: its row, the mirrored parent row, and no payload yet. */
  lemma RotateKey(suite: Suite, t: KeyTables, log: SealLog, dek: Bytes, id: int, vid: int, entry: Entry,
    material: Bytes)
    requires KeysAgree(suite, t, log, dek) && id in t.rows && t.rows[id].kid in t.ring
      && t.ring[t.rows[id].kid].AesKey? && vid !in t.versions
    requires var kid := t.rows[id].kid;
             Wraps(log, dek, entry, KeyAad(kid, |t.ring[kid].versions| + 1), material)
    ensures var kid := t.rows[id].kid;
            KeysAgree(suite, KeyTables(
              t.rows[id := t.rows[id].(nonce := entry.nonce, material := entry.body)],
              t.versions[vid := VersionRow(id, |t.ring[kid].versions| + 1, entry)],
              t.history[id := t.history[id] + [entry]],
              t.ring[kid := Rotated(t.ring[kid], material)]), log, dek)
  {
    var kid := t.rows[id].kid;
    var key := t.ring[kid];
    var row' := t.rows[id].(nonce := entry.nonce, material := entry.body);
    var key' := Rotated(key, material);
    assert RowAgrees(suite, t.rows[id], t.history[id], key, log, dek);
    hide Ladder;
    AppendKeepsLadder(t.versions, t.history, id, vid, entry);
    RotatedRowAgrees(suite, t.rows[id], t.history[id], key, log, dek, entry, material);
    forall v: nat ensures IssuedBy(key', v) == IssuedBy(key, v) {
      RotationIssuesNothing(key, material, v);
    }
    ReplaceKey(suite, t, log, dek, id, row', key', t.history[id] + [entry],
      t.versions[vid := VersionRow(id, |key.versions| + 1, entry)]);
  }

  lemma RotatedRowAgrees(suite: Suite, row: KeyRow, entries: seq<Entry>, key: Key, log: SealLog, dek: Bytes,
    entry: Entry, material: Bytes)
    requires RowAgrees(suite, row, entries, key, log, dek) && key.AesKey?
    requires Wraps(log, dek, entry, KeyAad(row.kid, |key.versions| + 1), material)
    ensures RowAgrees(suite, row.(nonce := entry.nonce, material := entry.body), entries + [entry],
                      Rotated(key, material), log, dek)
  {
    var row' := row.(nonce := entry.nonce, material := entry.body);
    var versions' := Rotated(key, material).versions;
    var entries' := entries + [entry];
    forall v: nat | 1 <= v <= |versions'|
      ensures Wraps(log, dek, entries'[v - 1], KeyAad(row'.kid, v), versions'[v - 1].material)
    {
      if v <= |key.versions| {
        assert Wraps(log, dek, entries[v - 1], KeyAad(row.kid, v), key.versions[v - 1].material);
      }
    }
  }

  /** Every key has its row. */
  lemma RowExists(suite: Suite, t: KeyTables, log: SealLog, dek: Bytes, kid: KeyId)
    requires KeysAgree(suite, t, log, dek)
    ensures kid in t.ring ==> exists id :: id in t.rows && t.rows[id].kid == kid
  {
    if kid in t.ring {
      var id := RowOf(Names(t.rows), t.ring.Keys, kid);
      assert id in t.rows && t.rows[id].kid == kid;
    }
  }

  /** What the columns of a row say about its key. */
  lemma RowMatchesKey(suite: Suite, t: KeyTables, log: SealLog, dek: Bytes, id: int)
    requires KeysAgree(suite, t, log, dek) && id in t.rows
    ensures t.rows[id].kid in t.ring && WellNamed(t.rows[id].kid)
    ensures var row, key := t.rows[id], t.ring[t.rows[id].kid];
            && row.usage == key.Usage() && row.algorithm == key.Algorithm() && row.createdAt == key.createdAt
            && (row.revokedAt.Some? <==> key.revoked)
            && (key.SigningKey? ==> row.public == Some(suite.public(key.seed)))
    ensures Ladder(t.versions, t.history) && id in t.history
    ensures |t.history[id]| == if t.ring[t.rows[id].kid].AesKey? then |t.ring[t.rows[id].kid].versions| else 0
  {
    RowHasKey(t, id);
  }

  /** The row a version is read from opens to that version's material, under that version's associated data. */
  lemma MaterialOpens(suite: Suite, t: KeyTables, log: SealLog, dek: Bytes, id: int, version: nat)
    requires KeysAgree(suite, t, log, dek) && id in t.rows
    ensures t.rows[id].kid in t.ring && id in t.history
    ensures var kid := t.rows[id].kid;
            var key := t.ring[kid];
            if key.AesKey? then
              1 <= version <= |key.versions| && version <= |t.history[id]| ==>
                Wraps(log, dek, t.history[id][version - 1], KeyAad(kid, version), key.versions[version - 1].material)
            else Open(log, dek, t.rows[id].nonce, t.rows[id].material, KeyAad(kid, 1)) == Some(key.seed)
  {
    RowHasKey(t, id);
  }

  lemma PayloadOpens(suite: Suite, t: KeyTables, log: SealLog, dek: Bytes, kid: KeyId, version: nat)
    requires KeysAgree(suite, t, log, dek) && WellNamed(kid) && version >= 1
    ensures At(log, PayloadAad(kid, version)) == Issued(t.ring, kid, version)
  {
  }

  lemma NewAesRowAgrees(suite: Suite, row: KeyRow, entry: Entry, material: Bytes, now: Time, log: SealLog, dek: Bytes)
    requires row == KeyRow(row.kid, EncryptDecrypt, "AES-256-GCM", entry.nonce, entry.body, None, None, now)
    requires Wraps(log, dek, entry, KeyAad(row.kid, 1), material)
    ensures RowAgrees(suite, row, [entry], NewAesKey(material, now), log, dek)
  {
  }

  lemma NewSigningRowAgrees(suite: Suite, row: KeyRow, seed: Bytes, now: Time, log: SealLog, dek: Bytes)
    requires row == KeyRow(row.kid, SignVerify, "ED25519", row.nonce, row.material, Some(suite.public(seed)), None, now)
    requires Open(log, dek, row.nonce, row.material, KeyAad(row.kid, 1)) == Some(seed)
    ensures RowAgrees(suite, row, [], NewSigningKey(seed, now), log, dek)
  {
  }

  lemma TouchedEngine(log: SealLog, log': SealLog, aad: string, engine: char)
    requires Grows(log, log') && (forall a | a != aad :: At(log', a) == At(log, a)) && Engine(aad) == engine
    ensures TouchesOnly(log, log', {engine})
  {
  }

  /** The unrevoked rows of an owner are exactly that owner's unrevoked keys. */
  lemma ListedRows(suite: Suite, t: KeyTables, log: SealLog, dek: Bytes, owner: string)
    requires KeysAgree(suite, t, log, dek)
    ensures (set id | id in t.rows && t.rows[id].kid.owner == owner && t.rows[id].revokedAt.None? :: t.rows[id].kid)
         == UsableKeys(t.ring, owner)
  {
    hide KeysAgree, Ladder;
    forall id | id in t.rows
      ensures t.rows[id].kid in t.ring && (t.rows[id].revokedAt.Some? <==> t.ring[t.rows[id].kid].revoked)
    {
      RowMatchesKey(suite, t, log, dek, id);
    }
    forall kid | kid in UsableKeys(t.ring, owner)
      ensures exists id :: id in t.rows && t.rows[id].kid == kid && t.rows[id].revokedAt.None?
    {
      RowExists(suite, t, log, dek, kid);
    }
  }
}
