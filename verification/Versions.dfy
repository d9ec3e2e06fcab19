/** Version tables: the rows of `transit_key_versions` and `kv_secret_versions`, and the histories they hold. */
module Versions {
  import opened Basics

  datatype Entry = Entry(nonce: Nonce, body: Bytes, createdAt: Time)

  datatype VersionRow = VersionRow(parent: int, version: int, entry: Entry)

  /** Rows by primary key. */
  type VersionTable = map<int, VersionRow>

  /** Per parent row, the entries of versions 1, 2, ... */
  type History = map<int, seq<Entry>>

  ghost predicate HasRow(t: VersionTable, parent: int, version: int) {
    exists id :: id in t && t[id].parent == parent && t[id].version == version
  }

  /** The rows of every parent are exactly 1..n: no gap, no repeat, no orphan. */
  ghost predicate Ladder(t: VersionTable, h: History) {
    && (forall id | id in t ::
          && t[id].parent in h && 1 <= t[id].version <= |h[t[id].parent]|
          && t[id].entry == h[t[id].parent][t[id].version - 1])
    && (forall parent, version | parent in h && 1 <= version <= |h[parent]| :: HasRow(t, parent, version))
    && (forall i, j | i in t && j in t && t[i].parent == t[j].parent && t[i].version == t[j].version :: i == j)
  }

  lemma Bound(used: set<int>) returns (b: int)
    ensures forall id: int | id in used :: id < b
  {
    b := 0;
    if x :| x in used {
      var c := Bound(used - {x});
      b := if x < c then c else x + 1;
      assert forall id | id in used :: id == x || id in used - {x};
    }
  }

  /** A primary key that is not in use; ids of deleted rows may come back. */
  method FreshId(used: set<int>) returns (id: int)
    ensures id !in used
  {
    ghost var b := Bound(used);
    assert b !in used;
    id :| id !in used;
  }

  /** `where(parent == p, version == v)` */
  method SelectVersion(t: VersionTable, ghost h: History, parent: int, version: int) returns (row: Option<VersionRow>)
    requires Ladder(t, h) && parent in h
    ensures row.Some? <==> 1 <= version <= |h[parent]|
    ensures row.Some? ==> row.value == VersionRow(parent, version, h[parent][version - 1])
  {
    if id :| id in t && t[id].parent == parent && t[id].version == version {
      row := Some(t[id]);
    } else {
      row := None;
      assert !HasRow(t, parent, version);
    }
  }

  predicate IsLatest(t: VersionTable, row: VersionRow) {
    forall id | id in t && t[id].parent == row.parent :: t[id].version <= row.version
  }

  /** `where(parent == p).order_by(desc(version))`, first row */
  method SelectLatest(t: VersionTable, ghost h: History, parent: int) returns (row: Option<VersionRow>)
    requires Ladder(t, h) && parent in h
    ensures row.Some? <==> h[parent] != []
    ensures row.Some? ==> row.value == VersionRow(parent, |h[parent]|, h[parent][|h[parent]| - 1])
  {
    ghost var n := |h[parent]|;
    if n > 0 {
      assert HasRow(t, parent, n);
    }
    if id :| id in t && t[id].parent == parent && IsLatest(t, t[id]) {
      row := Some(t[id]);
    } else {
      row := None;
    }
  }

  /** Inserting the next version extends one history and leaves the others alone. */
  lemma AppendKeepsLadder(t: VersionTable, h: History, parent: int, id: int, entry: Entry)
    requires Ladder(t, h) && parent in h && id !in t
    ensures Ladder(t[id := VersionRow(parent, |h[parent]| + 1, entry)], h[parent := h[parent] + [entry]])
  {
    var t' := t[id := VersionRow(parent, |h[parent]| + 1, entry)];
    var h' := h[parent := h[parent] + [entry]];
    forall p, v | p in h' && 1 <= v <= |h'[p]|
      ensures HasRow(t', p, v)
    {
      if p == parent && v == |h[parent]| + 1 {
        assert t'[id].parent == p && t'[id].version == v;
      } else {
        assert HasRow(t, p, v);
        var i :| i in t && t[i].parent == p && t[i].version == v;
        assert i in t' && t'[i] == t[i];
      }
    }
  }

  /** A new parent starts with an empty history, also when its id was used before. */
  lemma NewParentKeepsLadder(t: VersionTable, h: History, parent: int)
    requires Ladder(t, h) && parent !in h
    ensures Ladder(t, h[parent := []])
  {
    forall p, v | p in h[parent := []] && 1 <= v <= |h[parent := []][p]|
      ensures HasRow(t, p, v)
    {
      assert p in h && h[p] == h[parent := []][p];
    }
  }

  /** A new parent together with its first version row. */
  lemma FirstVersionKeepsLadder(t: VersionTable, h: History, parent: int, id: int, entry: Entry)
    requires Ladder(t, h) && parent !in h && id !in t
    ensures Ladder(t[id := VersionRow(parent, 1, entry)], h[parent := [entry]])
  {
    hide Ladder;
    NewParentKeepsLadder(t, h, parent);
    AppendKeepsLadder(t, h[parent := []], parent, id, entry);
    assert h[parent := []][parent] + [entry] == [entry];
    assert h[parent := []][parent := [entry]] == h[parent := [entry]];
  }

  /** `delete(...).where(parent == p)` and then the parent row itself. */
  lemma DropParentKeepsLadder(t: VersionTable, h: History, parent: int)
    requires Ladder(t, h)
    ensures Ladder(map id | id in t && t[id].parent != parent :: t[id], h - {parent})
  {
    var t' := map id | id in t && t[id].parent != parent :: t[id];
    forall p, v | p in h - {parent} && 1 <= v <= |h[p]|
      ensures HasRow(t', p, v)
    {
      assert HasRow(t, p, v);
      var i :| i in t && t[i].parent == p && t[i].version == v;
      assert i in t';
    }
  }
}
