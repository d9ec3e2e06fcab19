/** Exchanging the ciphertexts of two versions of one secret: the tables stay as valid as before. */
module Exchange {
  import opened Basics
  import opened Validation
  import opened Crypto
  import opened Versions
  import opened Database
  import opened SecretTables
  import opened SecretsModel

  /** The entry with another one's ciphertext. */
  function Resealed(entry: Entry, other: Entry): Entry {
    entry.(nonce := other.nonce, body := other.body)
  }

  function ExchangedRows(t: VersionTable, vid: int, wid: int): VersionTable
    requires vid in t && wid in t
  {
    t[vid := t[vid].(entry := Resealed(t[vid].entry, t[wid].entry))]
     [wid := t[wid].(entry := Resealed(t[wid].entry, t[vid].entry))]
  }

  function ExchangedEntries(entries: seq<Entry>, v: nat, w: nat): seq<Entry>
    requires v < |entries| && w < |entries|
  {
    entries[v := Resealed(entries[v], entries[w])][w := Resealed(entries[w], entries[v])]
  }

  function ExchangedValues(values: Values, v: nat, w: nat): Values
    requires v < |values| && w < |values|
  {
    values[v := values[v].(data := values[w].data)][w := values[w].(data := values[v].data)]
  }

  lemma ExchangeKeepsLadder(t: VersionTable, h: History, vid: int, wid: int)
    requires Ladder(t, h) && vid in t && wid in t && t[vid].parent == t[wid].parent
    ensures var id, v, w := t[vid].parent, t[vid].version - 1, t[wid].version - 1;
            && id in h && 0 <= v < |h[id]| && 0 <= w < |h[id]|
            && Ladder(ExchangedRows(t, vid, wid), h[id := ExchangedEntries(h[id], v, w)])
  {
    var id, v, w := t[vid].parent, t[vid].version - 1, t[wid].version - 1;
    assert t[vid] == VersionRow(id, v + 1, h[id][v]) && t[wid] == VersionRow(id, w + 1, h[id][w]);
    var t', h' := ExchangedRows(t, vid, wid), h[id := ExchangedEntries(h[id], v, w)];
    forall i | i in t'
      ensures t'[i].parent in h' && 1 <= t'[i].version <= |h'[t'[i].parent]|
        && t'[i].entry == h'[t'[i].parent][t'[i].version - 1]
    {
      assert i in t && t'[i].parent == t[i].parent && t'[i].version == t[i].version;
    }
    forall p, n | p in h' && 1 <= n <= |h'[p]|
      ensures HasRow(t', p, n)
    {
      assert HasRow(t, p, n);
      var i :| i in t && t[i].parent == p && t[i].version == n;
      assert i in t' && t'[i].parent == p && t'[i].version == n;
    }
  }

  /** The parent row keeps mirroring its newest version. */
  function Mirroring(row: SecretRow, entries: seq<Entry>): SecretRow
    requires entries != []
  {
    row.(nonce := entries[|entries| - 1].nonce, body := entries[|entries| - 1].body)
  }

  lemma ExchangedRowAgrees(row: SecretRow, entries: seq<Entry>, values: Values, log: SealLog, dek: Bytes, v: nat,
    w: nat)
    requires RowAgrees(row, entries, values, log, dek) && v < |values| && w < |values|
    ensures var entries' := ExchangedEntries(entries, v, w);
            RowAgrees(Mirroring(row, entries'), entries', ExchangedValues(values, v, w), log, dek)
  {
    var entries', values' := ExchangedEntries(entries, v, w), ExchangedValues(values, v, w);
    assert Stores(log, dek, entries[v], row.path, values[v]) && Stores(log, dek, entries[w], row.path, values[w]);
    forall n | 0 <= n < |values'|
      ensures Stores(log, dek, entries'[n], row.path, values'[n])
    {
      assert Stores(log, dek, entries[n], row.path, values[n]);
    }
  }

  /** The one touched row: where it is, and that it agrees after the exchange. */
  lemma TouchedRow(t: SecretTables, log: SealLog, dek: Bytes, vid: int, wid: int)
    requires SecretsAgree(t, log, dek) && vid in t.versions && wid in t.versions
    requires t.versions[vid].parent == t.versions[wid].parent
    ensures var id, v, w := t.versions[vid].parent, t.versions[vid].version - 1, t.versions[wid].version - 1;
            && id in t.rows && id in t.history && t.rows[id].path in t.values
            && 0 <= v < |t.history[id]| && 0 <= w < |t.history[id]| && |t.values[t.rows[id].path]| == |t.history[id]|
            && RowAgrees(Mirroring(t.rows[id], ExchangedEntries(t.history[id], v, w)),
              ExchangedEntries(t.history[id], v, w),
                         ExchangedValues(t.values[t.rows[id].path], v, w), log, dek)
            && Ladder(ExchangedRows(t.versions, vid, wid), t.history[id := ExchangedEntries(t.history[id], v, w)])
  {
    hide Owns, ValidEmail, Stores, RowAgrees, ExchangedEntries, ExchangedValues, ExchangedRows, Mirroring;
    var id := t.versions[vid].parent;
    RowMatches(t, log, dek, id);
    ExchangeKeepsLadder(t.versions, t.history, vid, wid);
    ExchangedRowAgrees(t.rows[id], t.history[id], t.values[t.rows[id].path], log, dek,
                       t.versions[vid].version - 1, t.versions[wid].version - 1);
  }

  /** The tables after the exchange, and the map they then stand for. */
  ghost function Exchanged(t: SecretTables, vid: int, wid: int): SecretTables
    requires vid in t.versions && wid in t.versions
  {
    var id, v, w := t.versions[vid].parent, t.versions[vid].version - 1, t.versions[wid].version - 1;
    if id in t.rows && id in t.history && 0 <= v < |t.history[id]| && 0 <= w < |t.history[id]|
      && t.rows[id].path in t.values && |t.values[t.rows[id].path]| == |t.history[id]| then
      var row, entries := t.rows[id], ExchangedEntries(t.history[id], v, w);
      SecretTables(t.rows[id := Mirroring(row, entries)], ExchangedRows(t.versions, vid, wid),
                   t.history[id := entries], t.values[row.path := ExchangedValues(t.values[row.path], v, w)])
    else t
  }

  /** The exchanged tables are valid, and stand for the map with the two values exchanged. */
  lemma ExchangeGoesUnnoticed(t: SecretTables, log: SealLog, dek: Bytes, vid: int, wid: int)
    requires SecretsAgree(t, log, dek) && vid in t.versions && wid in t.versions
    requires t.versions[vid].parent == t.versions[wid].parent
    ensures SecretsAgree(Exchanged(t, vid, wid), log, dek)
    ensures var id, v, w := t.versions[vid].parent, t.versions[vid].version - 1, t.versions[wid].version - 1;
            && id in t.rows && t.rows[id].path in t.values
            && 0 <= v < |t.values[t.rows[id].path]| && 0 <= w < |t.values[t.rows[id].path]|
            && Exchanged(t, vid, wid).values ==
              t.values[t.rows[id].path := ExchangedValues(t.values[t.rows[id].path], v, w)]
  {
    hide Owns, ValidEmail, RowAgrees, Ladder, ExchangedEntries, ExchangedValues, ExchangedRows;
    TouchedRow(t, log, dek, vid, wid);
    var id := t.versions[vid].parent;
    var t' := Exchanged(t, vid, wid);
    UpdatedTable(t, id, t'.rows[id], t'.history[id], t'.versions, t'.values[t.rows[id].path]);
    PathsDiffer(t, id, t.rows[id].path);
    hide Tabulated;
    OtherRowsAgree(t, t', log, dek, id);
  }
}
