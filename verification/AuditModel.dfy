/** The hash-chained audit log as a sequence of rows in id order. */
module AuditModel {
  import opened Text
  import opened Base64
  import opened Crypto

  const GENESIS := "GENESIS"

  datatype Row = Row(
    id: nat, email: string, action: string, resourceType: string, identifier: string, result: string,
    clientIp: string, previousHash: string, hash: string)

  /** The text whose hash a row carries. It leaves out the resource type and the client address. */
  function Line(row: Row, previous: string): string {
    Join(Dec(row.id), '|', Join(previous, '|', Fields(row)))
  }

  function Fields(row: Row): string {
    Join(row.email, '|', Join(row.action, '|', Join(row.identifier, '|', row.result)))
  }

  function HashText(suite: Suite, line: string): string {
    B64e(suite.sha256(line))
  }

  function Head(rows: seq<Row>): string {
    if rows == [] then GENESIS else rows[|rows| - 1].hash
  }

  predicate Linked(suite: Suite, row: Row, previous: string) {
    row.previousHash == previous && row.hash == HashText(suite, Line(row, previous))
  }

  predicate Chain(suite: Suite, rows: seq<Row>) {
    rows == [] || (Chain(suite, Front(rows)) && Linked(suite, rows[|rows| - 1], Head(Front(rows))))
  }

  function Front(rows: seq<Row>): seq<Row>
    requires rows != []
  {
    rows[..|rows| - 1]
  }

  function NextId(rows: seq<Row>): nat {
    if rows == [] then 1 else rows[|rows| - 1].id + 1
  }

  /** The log after one more row, linked to the present head. */
  function Extend(suite: Suite, rows: seq<Row>, row: Row): seq<Row> {
    var previous := Head(rows);
    rows + [row.(previousHash := previous, hash := HashText(suite, Line(row, previous)))]
  }

  function Append(suite: Suite, rows: seq<Row>, email: string, action: string, resourceType: string,
    identifier: string, result: string, clientIp: string): seq<Row>
  {
    Extend(suite, rows, Row(NextId(rows), email, action, resourceType, identifier, result, clientIp, "", ""))
  }

  /** The rows appended again one by one, with their own ids. */
  function Replay(suite: Suite, rows: seq<Row>): (r: seq<Row>)
    ensures |r| == |rows|
  {
    if rows == [] then [] else Extend(suite, Replay(suite, Front(rows)), rows[|rows| - 1])
  }

  datatype Verdict = Intact | Broken(id: nat, previousMismatch: bool)

  /** What the checker answers: the first row that does not link to the rows before it. */
  function Check(suite: Suite, rows: seq<Row>): Verdict {
    if rows == [] then Intact
    else
      var earlier := Check(suite, Front(rows));
      var row := rows[|rows| - 1];
      var previous := Head(Front(rows));
      if earlier.Broken? then earlier
      else if row.previousHash != previous then Broken(row.id, true)
      else if row.hash != HashText(suite, Line(row, previous)) then Broken(row.id, false)
      else Intact
  }

  lemma {:induction false} IntactIffChain(suite: Suite, rows: seq<Row>)
    ensures Check(suite, rows) == Intact <==> Chain(suite, rows)
  {
    if rows != [] {
      IntactIffChain(suite, Front(rows));
    }
  }

  lemma {:induction false} ChainPrefix(suite: Suite, rows: seq<Row>, n: nat)
    requires n <= |rows| && Chain(suite, rows)
    ensures Chain(suite, rows[..n])
  {
    if n < |rows| {
      ChainPrefix(suite, Front(rows), n);
      assert Front(rows)[..n] == rows[..n];
    } else {
      assert rows[..n] == rows;
    }
  }

  /** A log cut to a prefix still verifies: the checker cannot see that its end is missing. */
  lemma TruncationIsInvisible(suite: Suite, rows: seq<Row>, n: nat)
    requires n <= |rows| && Check(suite, rows) == Intact
    ensures Check(suite, rows[..n]) == Intact
  {
    IntactIffChain(suite, rows);
    ChainPrefix(suite, rows, n);
    IntactIffChain(suite, rows[..n]);
  }

  /** The reported row is the first whose prefix is not a valid chain. */
  lemma {:induction false} CheckPinpoints(suite: Suite, rows: seq<Row>) returns (i: nat)
    requires Check(suite, rows).Broken?
    ensures i < |rows| && Chain(suite, rows[..i]) && !Chain(suite, rows[..i + 1])
    ensures Check(suite, rows) == Broken(rows[i].id, rows[i].previousHash != Head(rows[..i]))
  {
    hide Line, HashText;
    i := |rows| - 1;
    var front := rows[..i];
    IntactIffChain(suite, front);
    if Check(suite, front).Broken? {
      i := CheckPinpoints(suite, front);
      assert front[..i] == rows[..i] && front[..i + 1] == rows[..i + 1];
    } else {
      IntactIffChain(suite, rows);
      assert rows[..i + 1] == rows;
    }
  }

  /** A break stays the first break, whatever rows follow. */
  lemma {:induction false} BreakPersists(suite: Suite, rows: seq<Row>, n: nat)
    requires n <= |rows| && Check(suite, rows[..n]).Broken?
    ensures Check(suite, rows) == Check(suite, rows[..n])
  {
    if n < |rows| {
      assert Front(rows)[..n] == rows[..n];
      BreakPersists(suite, Front(rows), n);
    } else {
      assert rows[..n] == rows;
    }
  }

  /** A row that does not fit after a valid prefix is what the checker reports. */
  lemma BreakIsReported(suite: Suite, rows: seq<Row>, i: nat)
    requires i < |rows| && Chain(suite, rows[..i]) && !Linked(suite, rows[i], Head(rows[..i]))
    ensures Check(suite, rows) == Broken(rows[i].id, rows[i].previousHash != Head(rows[..i]))
  {
    assert Front(rows[..i + 1]) == rows[..i];
    IntactIffChain(suite, rows[..i]);
    BreakPersists(suite, rows, i + 1);
  }

  lemma ExtendKeepsChain(suite: Suite, rows: seq<Row>, row: Row)
    requires Chain(suite, rows)
    ensures Chain(suite, Extend(suite, rows, row))
  {
    var rows' := Extend(suite, rows, row);
    assert Front(rows') == rows;
  }

  /** Backfilling any legacy rows yields a log that verifies, and so does every log appended to it later. */
  lemma {:induction false} ReplayIsChain(suite: Suite, rows: seq<Row>)
    ensures Chain(suite, Replay(suite, rows))
  {
    if rows != [] {
      ReplayIsChain(suite, Front(rows));
      ExtendKeepsChain(suite, Replay(suite, Front(rows)), rows[|rows| - 1]);
    }
  }

  lemma LinkedRowExtends(suite: Suite, rows: seq<Row>, row: Row)
    requires Linked(suite, row, Head(rows))
    ensures Extend(suite, rows, row) == rows + [row]
  {
  }

  /** Backfilling a log that already verifies changes nothing. */
  lemma {:induction false} ReplayFixesChain(suite: Suite, rows: seq<Row>)
    requires Chain(suite, rows)
    ensures Replay(suite, rows) == rows
  {
    if rows != [] {
      var front, row := Front(rows), rows[|rows| - 1];
      ReplayFixesChain(suite, front);
      LinkedRowExtends(suite, front, row);
      assert rows == front + [row];
    }
  }

  /** One round of the backfill loop: row i is linked to the chain rebuilt so far. */
  lemma ReplayRound(suite: Suite, legacy: seq<Row>, rows: seq<Row>, i: nat)
    requires i < |rows| == |legacy|
    requires rows[..i] == Replay(suite, legacy[..i]) && rows[i..] == legacy[i..]
    ensures var row := rows[i];
            var previous := Head(rows[..i]);
            var rows' := rows[i := row.(previousHash := previous, hash := HashText(suite, Line(row, previous)))];
            && rows'[..i + 1] == Replay(suite, legacy[..i + 1]) && rows'[i + 1..] == legacy[i + 1..]
  {
    assert rows[i] == rows[i..][0] == legacy[i..][0] == legacy[i];
    assert Front(legacy[..i + 1]) == legacy[..i];
    assert rows[i + 1..] == rows[i..][1..] && legacy[i + 1..] == legacy[i..][1..];
  }
}
