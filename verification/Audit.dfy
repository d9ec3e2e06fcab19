/** app/audit/service.py and the chain checker of app/router.py. */
module Audit {
  import opened Crypto
  import opened AuditModel

  /** The table `audit_logs`: whether it exists, whether it has the two hash columns, and its rows by id. */
  class AuditTable {
    const suite: Suite
    var present: bool
    var hasPreviousColumn: bool
    var hasHashColumn: bool
    var rows: seq<Row>

    /** A table created by the present schema. */
    constructor (suite: Suite)
      ensures this.suite == suite && present && hasPreviousColumn && hasHashColumn && rows == []
    {
      this.suite := suite;
      present, hasPreviousColumn, hasHashColumn, rows := true, true, true, [];
    }

    /** Runs at start-up: adds the missing columns and computes the chain for the rows already there. */
    method EnsureSchema()
      modifies this`hasPreviousColumn, this`hasHashColumn, this`rows
      ensures !old(present) || old(hasPreviousColumn && hasHashColumn) ==>
        rows == old(rows) && hasPreviousColumn == old(hasPreviousColumn) && hasHashColumn == old(hasHashColumn)
      ensures old(present) && !old(hasPreviousColumn && hasHashColumn) ==>
        rows == Replay(suite, old(rows)) && hasPreviousColumn && hasHashColumn && Chain(suite, rows)
    {
      if !present {
        return;
      }
      if hasPreviousColumn && hasHashColumn {
        return;
      }
      hasPreviousColumn, hasHashColumn := true, true;
      ghost var legacy := rows;
      var previous := GENESIS;
      var i := 0;
      while i < |rows|
        invariant 0 <= i <= |rows| == |legacy|
        invariant rows[..i] == Replay(suite, legacy[..i]) && rows[i..] == legacy[i..]
        invariant previous == Head(rows[..i]) && hasPreviousColumn && hasHashColumn
      {
        var row := rows[i];
        var hash := HashText(suite, Line(row, previous));
        ReplayRound(suite, legacy, rows, i);
        rows := rows[i := row.(previousHash := previous, hash := hash)];
        previous := hash;
        i := i + 1;
      }
      assert rows[..i] == rows && legacy[..i] == legacy;
      ReplayIsChain(suite, legacy);
    }

    /** Appends one row: its id is drawn first, then the hash is filled in. */
    method Record(email: string, action: string, resourceType: string, identifier: string, result: string,
      clientIp: string)
      modifies this`rows
      ensures rows == Append(suite, old(rows), email, action, resourceType, identifier, result, clientIp)
      ensures Chain(suite, old(rows)) ==> Chain(suite, rows)
    {
      ghost var before := rows;
      var previous := if |rows| > 0 then rows[|rows| - 1].hash else GENESIS;
      var id := NextId(rows);
      var row := Row(id, email, action, resourceType, identifier, result, clientIp, previous, "");
      rows := rows + [row];
      var hash := HashText(suite, Line(row, previous));
      rows := rows[|rows| - 1 := row.(hash := hash)];
      assert rows == Append(suite, before, email, action, resourceType, identifier, result, clientIp);
      if Chain(suite, before) {
        ExtendKeepsChain(suite, before, row);
        assert rows == Extend(suite, before, row);
      }
    }

    /** Walks the log from the start and stops at the first row that does not fit. */
    method Verify() returns (verdict: Verdict)
      ensures verdict == Check(suite, rows)
    {
      var previous := GENESIS;
      var i := 0;
      while i < |rows|
        invariant 0 <= i <= |rows|
        invariant previous == Head(rows[..i])
        invariant Check(suite, rows[..i]) == Intact
      {
        var row := rows[i];
        assert Front(rows[..i + 1]) == rows[..i];
        if row.previousHash != previous {
          BreakPersists(suite, rows, i + 1);
          return Broken(row.id, true);
        }
        if row.hash != HashText(suite, Line(row, previous)) {
          BreakPersists(suite, rows, i + 1);
          return Broken(row.id, false);
        }
        previous := row.hash;
        i := i + 1;
      }
      assert rows[..i] == rows;
      return Intact;
    }
  }
}
