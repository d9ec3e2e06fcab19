/** app/kv/service.py over its two tables, proved to behave as the map they stand for. */
module KeyValue {
  import opened Basics
  import opened Validation
  import opened Contexts
  import opened Crypto
  import opened Versions
  import opened Database
  import opened SecretTables
  import opened SecretsModel
  import Transit

  class KVService {
    const db: Tables
    const state: VaultState
    const crypto: CryptoService

    constructor (db: Tables, state: VaultState, crypto: CryptoService)
      ensures this.db == db && this.state == state && this.crypto == crypto
    {
      this.db, this.state, this.crypto := db, state, crypto;
    }

    ghost function Snapshot(): SecretTables
      reads db
    {
      SecretTables(db.secrets, db.secretVersions, db.valueHistory, db.values)
    }

    ghost predicate Valid()
      reads this, db, state, crypto
    {
      && crypto.Valid() && Transit.DekHeld(state.dek, db.core)
      && SecretsAgree(Snapshot(), crypto.log, Transit.DekOf(db.core))
    }

    ghost predicate Unlocked()
      reads state
    {
      state.dek.Some?
    }

    /** `where(path == p)`, as `write` does it: the owner column is not consulted. */
    method SelectByPath(path: string) returns (id: Option<int>)
      requires Valid()
      ensures id.Some? <==> path in db.values
      ensures id.Some? ==> id.value in db.secrets && db.secrets[id.value].path == path
    {
      hide SecretsAgree, Ladder, ValidatePath, ValidEmail;
      if i :| i in db.secrets && db.secrets[i].path == path {
        RowMatches(Snapshot(), crypto.log, Transit.DekOf(db.core), i);
        id := Some(i);
      } else {
        id := None;
        if path in db.values {
          var i := RowExists(Snapshot(), crypto.log, Transit.DekOf(db.core), path);
          assert false;
        }
      }
    }

    /** `where(path == p, owner_email == email)`: for an admissible path the owner filter never matters. */
    method SelectOwned(path: string, email: string) returns (id: Option<int>)
      requires Valid() && ValidEmail(email) && Owns(email, path)
      ensures id.Some? <==> path in db.values
      ensures id.Some? ==> id.value in db.secrets && db.secrets[id.value].path == path
    {
      hide SecretsAgree, Ladder, ValidatePath, ValidEmail;
      if i :| i in db.secrets && db.secrets[i].path == path && db.secrets[i].owner == email {
        RowMatches(Snapshot(), crypto.log, Transit.DekOf(db.core), i);
        id := Some(i);
      } else {
        id := None;
        if path in db.values {
          var i := RowExists(Snapshot(), crypto.log, Transit.DekOf(db.core), path);
          RowMatches(Snapshot(), crypto.log, Transit.DekOf(db.core), i);
          OwnerIsUnique(path, email, db.secrets[i].owner);
          assert false;
        }
      }
    }

    method CurrentVersion(id: int) returns (row: Option<VersionRow>)
      requires Valid() && id in db.secrets
      ensures var path := db.secrets[id].path;
              && path in db.values && row.Some? && row.value.version == |db.values[path]|
              && Stores(crypto.log, Transit.DekOf(db.core), row.value.entry, path, Last(db.values[path]))
    {
      hide SecretsAgree, Ladder, ValidatePath, ValidEmail;
      RowMatches(Snapshot(), crypto.log, Transit.DekOf(db.core), id);
      row := SelectLatest(db.secretVersions, db.valueHistory, id);
    }

    method Write(path: string, email: string, data: Bytes, nonce: Nonce, now: Time) returns (r: Result<Receipt>)
      requires Valid() && ValidEmail(email)
      modifies db`secrets, db`secretVersions, db`valueHistory, db`values, crypto`log, crypto`calls
      ensures Valid() && TouchesOnly(old(crypto.log), crypto.log, {'s'})
      ensures AtMostOneSeal(old(crypto.calls), crypto.calls, Some(nonce))
      ensures (db.values, r) == SecretsModel.Write(Unlocked(), old(db.values), path, email, data, now)
    {
      hide SecretsAgree, Ladder, ValidatePath, ValidEmail;
      var _ :- ValidatePath(path, email);
      var dek :- state.RequireDek();
      if |data| > MAX_PAYLOAD {
        return Err(ValidationError);
      }
      ghost var log0, t := crypto.log, Snapshot();
      var body := crypto.Encrypt(dek, nonce, data, path);
      SecretEngine(email, path);
      GrowthKeepsSecrets(t, log0, crypto.log, dek);
      var entry := Entry(nonce, body, now);
      ghost var value := Value(data, now);
      assert Stores(crypto.log, dek, entry, path, value) && TouchesOnly(log0, crypto.log, {'s'});
      hide Stores, TouchesOnly, Grows, Record, Consistent, LogOf;
      var existing := SelectByPath(path);
      if existing.Some? {
        var receipt := Update(existing.value, path, entry, value);
        r := Ok(receipt);
      } else {
        var receipt := Insert(path, email, entry, value);
        r := Ok(receipt);
      }
    }

    /** The path has a row: it takes the new ciphertext, and the next version row keeps it for good. */
    method Update(id: int, path: string, entry: Entry, ghost value: Value) returns (receipt: Receipt)
      requires id in db.secrets && db.secrets[id].path == path
      requires Stores(crypto.log, Transit.DekOf(db.core), entry, path, value) && Valid()
      modifies db`secrets, db`secretVersions, db`valueHistory, db`values
      ensures db.values == old(db.values)[path := Written(old(db.values), path, value)]
      ensures receipt == Summary(path, Written(old(db.values), path, value))
      ensures Valid()
    {
      hide SecretsAgree, Ladder, ValidatePath, ValidEmail;
      ghost var t := Snapshot();
      RowMatches(t, crypto.log, Transit.DekOf(db.core), id);
      var latest := CurrentVersion(id);
      var next := (if latest.Some? then latest.value.version else 1) + 1;
      var vid := FreshId(db.secretVersions.Keys);
      var row := db.secrets[id].(nonce := entry.nonce, body := entry.body, updatedAt := entry.createdAt);
      assert entry.createdAt == value.writtenAt;
      hide Stores;
      UpdateSecret(t, crypto.log, Transit.DekOf(db.core), id, vid, entry, value);
      db.secrets := db.secrets[id := row];
      db.secretVersions := db.secretVersions[vid := VersionRow(id, next, entry)];
      db.valueHistory := db.valueHistory[id := db.valueHistory[id] + [entry]];
      db.values := db.values[row.path := db.values[row.path] + [value]];
      receipt := Receipt(row.path, next, row.createdAt, row.updatedAt);
    }

    /** The path is new: its row may reuse the id of a deleted one, and its history starts at version 1. */
    method Insert(path: string, email: string, entry: Entry, ghost value: Value) returns (receipt: Receipt)
      requires ValidEmail(email) && Owns(email, path) && path !in db.values
      requires Stores(crypto.log, Transit.DekOf(db.core), entry, path, value) && Valid()
      modifies db`secrets, db`secretVersions, db`valueHistory, db`values
      ensures db.values == old(db.values)[path := Written(old(db.values), path, value)]
      ensures receipt == Summary(path, Written(old(db.values), path, value))
      ensures Valid()
    {
      hide SecretsAgree, Ladder, ValidatePath, ValidEmail;
      var id := FreshId(db.secrets.Keys);
      var vid := FreshId(db.secretVersions.Keys);
      var row := SecretRow(path, email, entry.nonce, entry.body, entry.createdAt, entry.createdAt);
      assert entry.createdAt == value.writtenAt;
      hide Stores;
      AddSecret(Snapshot(), crypto.log, Transit.DekOf(db.core), id, row, vid, entry, value);
      db.secrets := db.secrets[id := row];
      db.secretVersions := db.secretVersions[vid := VersionRow(id, 1, entry)];
      db.valueHistory := db.valueHistory[id := [entry]];
      db.values := db.values[path := [value]];
      receipt := Receipt(row.path, 1, row.createdAt, row.updatedAt);
    }

    method Read(path: string, email: string, version: Option<int>) returns (r: Result<Reading>)
      requires Valid() && ValidEmail(email)
      ensures r == SecretsModel.Read(Unlocked(), db.values, path, email, version)
    {
      hide SecretsAgree, Ladder, ValidatePath, ValidEmail;
      var _ :- ValidatePath(path, email);
      var dek :- state.RequireDek();
      var item := SelectOwned(path, email);
      if item.None? {
        return Err(NotFound);
      }
      var id := item.value;
      RowMatches(Snapshot(), crypto.log, dek, id);
      var row := db.secrets[id];
      var record;
      if version.Some? {
        if version.value < 1 {
          return Err(ValidationError);
        }
        record := SelectVersion(db.secretVersions, db.valueHistory, id, version.value);
        if record.None? {
          return Err(NotFound);
        }
      } else {
        record := CurrentVersion(id);
      }
      var nonce := if record.Some? then record.value.entry.nonce else row.nonce;
      var body := if record.Some? then record.value.entry.body else row.body;
      var current := if record.Some? then record.value.version else 1;
      var data := crypto.Decrypt(dek, nonce, body, path);
      r := if data.Some? then Ok(Reading(path, current, data.value)) else Err(DecryptionFailed);
    }

    method Versions(path: string, email: string) returns (r: Result<seq<VersionInfo>>)
      requires Valid() && ValidEmail(email)
      ensures r == SecretsModel.Versions(Unlocked(), db.values, path, email)
    {
      hide SecretsAgree, Ladder, ValidatePath, ValidEmail;
      var _ :- ValidatePath(path, email);
      var _ :- state.RequireDek();
      var item := SelectOwned(path, email);
      if item.None? {
        return Err(NotFound);
      }
      RowMatches(Snapshot(), crypto.log, Transit.DekOf(db.core), item.value);
      var unversioned := VersionInfo(1, db.secrets[item.value].createdAt);
      var infos := SelectVersions(item.value);
      r := Ok(if infos == [] then [unversioned] else infos);
    }

    /** `where(kv_secret_id == id).order_by(version)` */
    method SelectVersions(id: int) returns (infos: seq<VersionInfo>)
      requires id in db.secrets && Valid()
      ensures db.secrets[id].path in db.values && infos == Infos(db.values[db.secrets[id].path])
    {
      hide SecretsAgree, Ladder, ValidatePath, ValidEmail, Stores;
      RowMatches(Snapshot(), crypto.log, Transit.DekOf(db.core), id);
      var last := CurrentVersion(id);
      var n := if last.Some? then last.value.version else 0;
      ghost var values := db.values[db.secrets[id].path];
      infos := [];
      for v := 0 to n
        invariant |infos| == v
        invariant forall i | 0 <= i < v :: infos[i] == VersionInfo(i + 1, values[i].writtenAt)
      {
        var row := SelectVersion(db.secretVersions, db.valueHistory, id, v + 1);
        if row.Some? {
          infos := infos + [VersionInfo(row.value.version, row.value.entry.createdAt)];
        }
      }
      assert infos == Infos(values);
    }

    method Delete(path: string, email: string) returns (r: Result<()>)
      requires Valid() && ValidEmail(email)
      modifies db`secrets, db`secretVersions, db`valueHistory, db`values
      ensures Valid()
      ensures (db.values, r) == SecretsModel.Delete(Unlocked(), old(db.values), path, email)
    {
      hide SecretsAgree, Ladder, ValidatePath, ValidEmail;
      var _ :- ValidatePath(path, email);
      var _ :- state.RequireDek();
      var item := SelectOwned(path, email);
      if item.None? {
        return Err(NotFound);
      }
      var id := item.value;
      DropSecret(Snapshot(), crypto.log, Transit.DekOf(db.core), id);
      db.secretVersions := map v | v in db.secretVersions && db.secretVersions[v].parent != id :: db.secretVersions[v];
      db.secrets := db.secrets - {id};
      db.valueHistory := db.valueHistory - {id};
      db.values := db.values - {path};
      r := Ok(());
    }

    method Describe(id: int) returns (receipt: Receipt)
      requires Valid() && id in db.secrets
      ensures db.secrets[id].path in db.values
      ensures receipt == Summary(db.secrets[id].path, db.values[db.secrets[id].path])
    {
      hide SecretsAgree, Ladder, ValidatePath, ValidEmail;
      RowMatches(Snapshot(), crypto.log, Transit.DekOf(db.core), id);
      var row := db.secrets[id];
      var current := CurrentVersion(id);
      receipt := Receipt(row.path, if current.Some? then current.value.version else 1, row.createdAt, row.updatedAt);
    }

    /** `where(owner_email == email).order_by(path)` */
    method List(email: string) returns (r: Result<seq<Receipt>>)
      requires Valid() && ValidEmail(email)
      ensures r == SecretsModel.List(Unlocked(), db.values, email)
    {
      hide SecretsAgree, Ladder, ValidatePath, ValidEmail;
      hide Sorted, Summaries, Precedes, Summary;
      var _ :- state.RequireDek();
      var paths := set id | id in db.secrets && db.secrets[id].owner == email :: db.secrets[id].path;
      OwnedPaths(Snapshot(), crypto.log, Transit.DekOf(db.core), email);
      ghost var all := paths;
      ghost var done := [];
      var receipts := [];
      NothingListed(db.values, all);
      while paths != {}
        invariant paths <= all && all == PathsOf(db.values, email)
        invariant Sorted(all) == done + Sorted(paths)
        invariant receipts == Summaries(db.values, done)
        decreases |paths|
      {
        FirstExists(paths);
        var path :| path in paths && forall other | other in paths :: Precedes(path, other);
        var id := SelectByPath(path);
        if id.Some? {
          var receipt := Describe(id.value);
          receipts := receipts + [receipt];
        }
        SummariesSnoc(db.values, done, path);
        SortedStep(all, done, paths, path);
        done := done + [path];
        paths := paths - {path};
      }
      assert done + [] == done;
      r := Ok(receipts);
    }
  }

  lemma NothingListed(secrets: Secrets, all: set<string>)
    ensures Summaries(secrets, []) == [] && Sorted(all) == [] + Sorted(all) && Sorted({}) == []
  {
  }

  lemma SummariesSnoc(secrets: Secrets, done: seq<string>, path: string)
    requires path in secrets
    ensures Summaries(secrets, done + [path]) == Summaries(secrets, done) + [Summary(path, secrets[path])]
  {
  }

  lemma SortedStep(all: set<string>, done: seq<string>, paths: set<string>, path: string)
    requires Sorted(all) == done + Sorted(paths) && IsFirst(path, paths)
    ensures Sorted(all) == (done + [path]) + Sorted(paths - {path})
  {
    FirstIsUnique(path, paths);
  }

  /** The rows with an owner column equal to `email` are those whose path lies in that email's namespace. */
  lemma OwnedPaths(t: SecretTables, log: SealLog, dek: Bytes, email: string)
    requires SecretsAgree(t, log, dek) && ValidEmail(email)
    ensures (set id | id in t.rows && t.rows[id].owner == email :: t.rows[id].path) == PathsOf(t.values, email)
  {
    hide SecretsAgree, Ladder, ValidatePath, ValidEmail;
    forall path | path in PathsOf(t.values, email)
      ensures exists id :: id in t.rows && t.rows[id].owner == email && t.rows[id].path == path
    {
      var id := RowExists(t, log, dek, path);
      RowMatches(t, log, dek, id);
      OwnerIsUnique(path, email, t.rows[id].owner);
    }
    forall id | id in t.rows && t.rows[id].owner == email
      ensures t.rows[id].path in PathsOf(t.values, email)
    {
      RowMatches(t, log, dek, id);
    }
  }
}
