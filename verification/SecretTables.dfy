/** How the rows of the KV tables and the seal log stand for a map from path to values. */
module SecretTables {
  import opened Basics
  import opened Validation
  import opened Crypto
  import opened Versions
  import opened Database
  import opened Index
  import opened SecretsModel

  datatype SecretTables = SecretTables(rows: map<int, SecretRow>, versions: VersionTable, history: History,
    values: Secrets)

  ghost function Paths(rows: map<int, SecretRow>): map<int, string> {
    map id | id in rows :: rows[id].path
  }

  /** One row per path, owned by the email its path names. */
  ghost predicate Tabulated(t: SecretTables) {
    && Unique(Paths(t.rows), t.values.Keys) && Ladder(t.versions, t.history) && t.history.Keys == t.rows.Keys
    && forall id | id in t.rows :: ValidEmail(t.rows[id].owner) && Owns(t.rows[id].owner, t.rows[id].path)
  }

  /** An entry opens, under its path alone, to the value it was written with. */
  ghost predicate Stores(log: SealLog, dek: Bytes, entry: Entry, path: string, value: Value) {
    Open(log, dek, entry.nonce, entry.body, path) == Some(value.data) && entry.createdAt == value.writtenAt
  }

  ghost predicate RowAgrees(row: SecretRow, entries: seq<Entry>, values: Values, log: SealLog, dek: Bytes) {
    && |entries| == |values|
    && row.nonce == entries[|entries| - 1].nonce && row.body == entries[|entries| - 1].body
    && row.createdAt == values[0].writtenAt && row.updatedAt == Last(values).writtenAt
    && forall v | 0 <= v < |values| :: Stores(log, dek, entries[v], row.path, values[v])
  }

  ghost predicate SecretsAgree(t: SecretTables, log: SealLog, dek: Bytes) {
    Tabulated(t) && forall id | id in t.rows ::
      t.rows[id].path in t.values && RowAgrees(t.rows[id], t.history[id], t.values[t.rows[id].path], log, dek)
  }

  /** Empty tables stand for the empty map. */
  lemma NoSecretsAgree(dek: Bytes)
    ensures SecretsAgree(SecretTables(map[], map[], map[], map[]), map[], dek)
  {
    hide Owns, ValidEmail;
  }

  lemma RowMatches(t: SecretTables, log: SealLog, dek: Bytes, id: int)
    requires SecretsAgree(t, log, dek) && id in t.rows
    ensures var row := t.rows[id];
            && row.path in t.values && ValidEmail(row.owner) && Owns(row.owner, row.path)
            && row.createdAt == t.values[row.path][0].writtenAt && row.updatedAt == Last(t.values[row.path]).writtenAt
    ensures Ladder(t.versions, t.history) && id in t.history && |t.history[id]| == |t.values[t.rows[id].path]|
    ensures forall v | 0 <= v < |t.history[id]| ::
      && Stores(log, dek, t.history[id][v], t.rows[id].path, t.values[t.rows[id].path][v])
      && t.history[id][v].createdAt == t.values[t.rows[id].path][v].writtenAt
  {
    hide Owns, ValidEmail, Ladder;
  }

  lemma RowExists(t: SecretTables, log: SealLog, dek: Bytes, path: string) returns (id: int)
    requires SecretsAgree(t, log, dek) && path in t.values
    ensures id in t.rows && t.rows[id].path == path
  {
    id := RowOf(Paths(t.rows), t.values.Keys, path);
    assert Paths(t.rows)[id] == t.rows[id].path;
  }

  lemma GrowthKeepsRow(row: SecretRow, entries: seq<Entry>, values: Values, log: SealLog, log': SealLog, dek: Bytes)
    requires RowAgrees(row, entries, values, log, dek) && Grows(log, log')
    ensures RowAgrees(row, entries, values, log', dek)
  {
    forall v | 0 <= v < |values|
      ensures Stores(log', dek, entries[v], row.path, values[v])
    {
      assert Stores(log, dek, entries[v], row.path, values[v]);
    }
  }

  /** Sealing anything anywhere never disturbs the secrets. */
  lemma GrowthKeepsSecrets(t: SecretTables, log: SealLog, log': SealLog, dek: Bytes)
    requires SecretsAgree(t, log, dek) && Grows(log, log')
    ensures SecretsAgree(t, log', dek)
  {
    hide RowAgrees, Ladder, Owns, ValidEmail;
    forall id | id in t.rows
      ensures RowAgrees(t.rows[id], t.history[id], t.values[t.rows[id].path], log', dek)
    {
      GrowthKeepsRow(t.rows[id], t.history[id], t.values[t.rows[id].path], log, log', dek);
    }
  }

  /** Every row but the touched one kept its row, history and values. */
  lemma OtherRowsAgree(t: SecretTables, t': SecretTables, log: SealLog, dek: Bytes, id: int)
    requires SecretsAgree(t, log, dek) && Tabulated(t')
    requires id in t'.rows ==>
      t'.rows[id].path in t'.values && RowAgrees(t'.rows[id], t'.history[id], t'.values[t'.rows[id].path], log, dek)
    requires forall i | i in t'.rows && i != id ::
      && i in t.rows && t'.rows[i] == t.rows[i] && t'.history[i] == t.history[i]
      && t.rows[i].path in t'.values && t'.values[t.rows[i].path] == t.values[t.rows[i].path]
    ensures SecretsAgree(t', log, dek)
  {
    hide RowAgrees, Ladder, Owns, ValidEmail;
  }

  lemma PathsDiffer(t: SecretTables, id: int, path: string)
    requires Tabulated(t) && (id in t.rows ==> t.rows[id].path == path) && (id !in t.rows ==> path !in t.values)
    ensures forall i | i in t.rows && i != id :: t.rows[i].path in t.values && t.rows[i].path != path
  {
    forall i | i in t.rows && i != id
      ensures t.rows[i].path in t.values && t.rows[i].path != path
    {
      assert Paths(t.rows)[i] == t.rows[i].path;
      assert id in t.rows ==> Paths(t.rows)[id] == path;
    }
  }

  lemma AddedTable(t: SecretTables, id: int, row: SecretRow, entries: seq<Entry>, versions': VersionTable,
    values: Values)
    requires Tabulated(t) && id !in t.rows && row.path !in t.values
    requires ValidEmail(row.owner) && Owns(row.owner, row.path) && Ladder(versions', t.history[id := entries])
    ensures Tabulated(SecretTables(t.rows[id := row], versions', t.history[id := entries],
      t.values[row.path := values]))
  {
    hide Ladder, Owns, ValidEmail;
    Added(Paths(t.rows), t.values.Keys, id, row.path);
    assert Paths(t.rows[id := row]) == Paths(t.rows)[id := row.path];
    assert t.values[row.path := values].Keys == t.values.Keys + {row.path};
  }

  /** The first write to a path: a row under any unused id, and a history that starts at 1. */
  lemma AddSecret(t: SecretTables, log: SealLog, dek: Bytes, id: int, row: SecretRow, vid: int, entry: Entry,
    value: Value)
    requires SecretsAgree(t, log, dek) && id !in t.rows && vid !in t.versions
    requires ValidEmail(row.owner) && Owns(row.owner, row.path) && row.path !in t.values
    requires row == SecretRow(row.path, row.owner, entry.nonce, entry.body, value.writtenAt, value.writtenAt)
    requires Stores(log, dek, entry, row.path, value)
    ensures SecretsAgree(SecretTables(t.rows[id := row], t.versions[vid := VersionRow(id, 1, entry)],
                                      t.history[id := [entry]], t.values[row.path := [value]]), log, dek)
  {
    hide Ladder, Owns, ValidEmail, Stores;
    var versions' := t.versions[vid := VersionRow(id, 1, entry)];
    FirstRowAgrees(row, log, dek, entry, value);
    hide RowAgrees;
    FirstVersionKeepsLadder(t.versions, t.history, id, vid, entry);
    AddedTable(t, id, row, [entry], versions', [value]);
    PathsDiffer(t, id, row.path);
    hide Tabulated;
    OtherRowsAgree(t, SecretTables(t.rows[id := row], versions', t.history[id := [entry]],
      t.values[row.path := [value]]),
                   log, dek, id);
  }

  lemma FirstRowAgrees(row: SecretRow, log: SealLog, dek: Bytes, entry: Entry, value: Value)
    requires row == SecretRow(row.path, row.owner, entry.nonce, entry.body, value.writtenAt, value.writtenAt)
    requires Stores(log, dek, entry, row.path, value)
    ensures RowAgrees(row, [entry], [value], log, dek)
  {
  }

  lemma UpdatedRow(row: SecretRow, entries: seq<Entry>, values: Values, log: SealLog, dek: Bytes, entry: Entry,
    value: Value)
    requires RowAgrees(row, entries, values, log, dek) && Stores(log, dek, entry, row.path, value)
    ensures RowAgrees(row.(nonce := entry.nonce, body := entry.body, updatedAt := value.writtenAt),
                      entries + [entry], values + [value], log, dek)
  {
    hide Stores;
    var values' := values + [value];
    forall v | 0 <= v < |values'|
      ensures Stores(log, dek, (entries + [entry])[v], row.path, values'[v])
    {
      assert v < |values| ==> Stores(log, dek, entries[v], row.path, values[v]);
    }
  }

  /** A later write: one more version row, the parent row mirroring it. */
  lemma UpdateSecret(t: SecretTables, log: SealLog, dek: Bytes, id: int, vid: int, entry: Entry, value: Value)
    requires SecretsAgree(t, log, dek) && id in t.rows && vid !in t.versions
    requires Stores(log, dek, entry, t.rows[id].path, value)
    ensures t.rows[id].path in t.values
    ensures var row := t.rows[id];
            SecretsAgree(SecretTables(
              t.rows[id := row.(nonce := entry.nonce, body := entry.body, updatedAt := value.writtenAt)],
              t.versions[vid := VersionRow(id, |t.values[row.path]| + 1, entry)],
              t.history[id := t.history[id] + [entry]],
              t.values[row.path := t.values[row.path] + [value]]), log, dek)
  {
    hide Ladder, Owns, ValidEmail, Stores;
    var row := t.rows[id];
    var values, entries := t.values[row.path], t.history[id];
    var row' := row.(nonce := entry.nonce, body := entry.body, updatedAt := value.writtenAt);
    var versions' := t.versions[vid := VersionRow(id, |values| + 1, entry)];
    UpdatedRow(row, entries, values, log, dek, entry, value);
    assert |entries| == |values|;
    hide RowAgrees;
    AppendKeepsLadder(t.versions, t.history, id, vid, entry);
    UpdatedTable(t, id, row', entries + [entry], versions', values + [value]);
    PathsDiffer(t, id, row.path);
    OtherRowsAgree(t, SecretTables(t.rows[id := row'], versions', t.history[id := entries + [entry]],
                                   t.values[row.path := values + [value]]), log, dek, id);
  }

  lemma UpdatedTable(t: SecretTables, id: int, row: SecretRow, entries: seq<Entry>, versions': VersionTable,
    values: Values)
    requires Tabulated(t) && id in t.rows && row.path == t.rows[id].path && row.owner == t.rows[id].owner
    requires row.path in t.values && Ladder(versions', t.history[id := entries])
    ensures Tabulated(SecretTables(t.rows[id := row], versions', t.history[id := entries],
      t.values[row.path := values]))
  {
    hide Ladder, Owns, ValidEmail;
    var paths, paths' := Paths(t.rows), Paths(t.rows[id := row]);
    assert paths'.Keys == paths.Keys;
    assert forall i | i in paths :: paths'[i] == paths[i];
    assert paths' == paths && t.values[row.path := values].Keys == t.values.Keys;
  }

  /** Deleting a secret deletes its row and its history, so that its id may be used again. */
  lemma DropSecret(t: SecretTables, log: SealLog, dek: Bytes, id: int)
    requires SecretsAgree(t, log, dek) && id in t.rows
    ensures SecretsAgree(SecretTables(
      t.rows - {id}, map v | v in t.versions && t.versions[v].parent != id :: t.versions[v],
      t.history - {id}, t.values - {t.rows[id].path}), log, dek)
  {
    hide RowAgrees, Ladder, Owns, ValidEmail;
    var path := t.rows[id].path;
    var t' := SecretTables(t.rows - {id}, map v | v in t.versions && t.versions[v].parent != id :: t.versions[v],
                           t.history - {id}, t.values - {path});
    DropParentKeepsLadder(t.versions, t.history, id);
    Removed(Paths(t.rows), t.values.Keys, id);
    assert Paths(t'.rows) == Paths(t.rows) - {id} && t'.values.Keys == t.values.Keys - {path};
    PathsDiffer(t, id, path);
    OtherRowsAgree(t, t', log, dek, id);
  }
}
