/** Unique columns: every row has its own value, and every value its row. */
module Index {
  ghost predicate Holds<K>(column: map<int, K>, k: K) {
    exists id :: id in column && column[id] == k
  }

  ghost predicate Unique<K(!new)>(column: map<int, K>, values: set<K>) {
    && (forall id | id in column :: column[id] in values)
    && (forall k | k in values :: Holds(column, k))
    && (forall i, j | i in column && j in column && column[i] == column[j] :: i == j)
  }

  lemma RowOf<K(!new)>(column: map<int, K>, values: set<K>, k: K) returns (id: int)
    requires Unique(column, values) && k in values
    ensures id in column && column[id] == k
  {
    assert Holds(column, k);
    id :| id in column && column[id] == k;
  }

  lemma Added<K(!new)>(column: map<int, K>, values: set<K>, id: int, k: K)
    requires Unique(column, values) && id !in column && k !in values
    ensures Unique(column[id := k], values + {k})
  {
    var column' := column[id := k];
    forall v | v in values + {k}
      ensures Holds(column', v)
    {
      var i := id;
      if v != k {
        i := RowOf(column, values, v);
      }
      assert i in column' && column'[i] == v;
    }
  }

  lemma Removed<K(!new)>(column: map<int, K>, values: set<K>, id: int)
    requires Unique(column, values) && id in column
    ensures Unique(column - {id}, values - {column[id]})
  {
    var column' := column - {id};
    forall v | v in values - {column[id]}
      ensures Holds(column', v)
    {
      var i := RowOf(column, values, v);
      assert i in column' && column'[i] == v;
    }
  }
}
