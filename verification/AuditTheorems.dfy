/** What the chain does and does not protect. */
module AuditTheorems {
  import opened Text
  import opened Validation
  import opened Base64
  import opened Crypto
  import opened AuditModel

  /** An address with an '@' and no separator after its first one; what stands before it is arbitrary. */
  predicate PlainDomain(email: string) {
    '@' in email && '|' !in Domain(email)
  }

  /** No separator in the domain, the action or the result; the local part and the identifier are arbitrary. */
  predicate PipeFree(row: Row) {
    PlainDomain(row.email) && '|' !in row.action && '|' !in row.result
  }

  predicate SameHashedFields(r: Row, s: Row) {
    r.id == s.id && r.email == s.email && r.action == s.action && r.identifier == s.identifier && r.result == s.result
  }

  function LineAt(rows: seq<Row>, i: nat): string
    requires i < |rows|
  {
    Line(rows[i], Head(rows[..i]))
  }

  /** SHA-256 tells apart the finitely many lines of two logs. */
  ghost predicate NoCollision(suite: Suite, a: seq<Row>, b: seq<Row>) {
    forall i: nat, j: nat | i < |a| && j < |b| && suite.sha256(LineAt(a, i)) == suite.sha256(LineAt(b, j)) ::
      LineAt(a, i) == LineAt(b, j)
  }

  lemma HashTextShape(suite: Suite, line: string)
    ensures |HashText(suite, line)| == 44 && '|' !in HashText(suite, line) && HashText(suite, line) != GENESIS
  {
    EncodedLength(suite.sha256(line), 11);
    NoSeparators(suite.sha256(line));
  }

  lemma HeadHasNoPipe(suite: Suite, rows: seq<Row>)
    requires Chain(suite, rows)
    ensures '|' !in Head(rows) && (Head(rows) == GENESIS <==> rows == [])
  {
    if rows != [] {
      HashTextShape(suite, Line(rows[|rows| - 1], Head(Front(rows))));
    }
  }

  /** An address is cut off at its '@' first, so separators in the local part do no harm. */
  lemma EmailDecodes(e: string, a: string, f: string, b: string)
    requires PlainDomain(e) && PlainDomain(f) && Join(e, '|', a) == Join(f, '|', b)
    ensures e == f && a == b
  {
    EmailParts(e);
    EmailParts(f);
    var x, y := Join(Domain(e), '|', a), Join(Domain(f), '|', b);
    assert Join(e, '|', a) == Join(Local(e), '@', x) && Join(f, '|', b) == Join(Local(f), '@', y);
    CutAtSeparator(Local(e), x, Local(f), y, '@');
    CutAtSeparator(Domain(e), a, Domain(f), b, '|');
  }

  lemma FieldsDecode(r: Row, s: Row)
    requires PipeFree(r) && PipeFree(s) && Fields(r) == Fields(s)
    ensures r.email == s.email && r.action == s.action && r.identifier == s.identifier && r.result == s.result
  {
    EmailDecodes(r.email, Join(r.action, '|', Join(r.identifier, '|', r.result)),
                 s.email, Join(s.action, '|', Join(s.identifier, '|', s.result)));
    hide PlainDomain;
    CutAtSeparator(r.action, Join(r.identifier, '|', r.result), s.action, Join(s.identifier, '|', s.result), '|');
    CutAtLastSeparator(r.identifier, r.result, s.identifier, s.result, '|');
  }

  lemma LineIdDecodes(r: Row, p: string, s: Row, q: string)
    requires Line(r, p) == Line(s, q)
    ensures r.id == s.id && Join(p, '|', Fields(r)) == Join(q, '|', Fields(s))
  {
    DecIsDigits(r.id);
    DecIsDigits(s.id);
    CutAtSeparator(Dec(r.id), Join(p, '|', Fields(r)), Dec(s.id), Join(q, '|', Fields(s)), '|');
    DecInjective(r.id, s.id);
  }

  /** The hashed line can be read back in one way only. */
  lemma LineDecodes(r: Row, p: string, s: Row, q: string)
    requires '|' !in p && '|' !in q && PipeFree(r) && PipeFree(s) && Line(r, p) == Line(s, q)
    ensures SameHashedFields(r, s) && p == q
  {
    LineIdDecodes(r, p, s, q);
    CutAtSeparator(p, Fields(r), q, Fields(s), '|');
    FieldsDecode(r, s);
  }

  ghost predicate AllPipeFree(rows: seq<Row>) {
    forall i | 0 <= i < |rows| :: PipeFree(rows[i])
  }

  /** The logs say the same between the separators: equal ids and equal text of the hashed fields, row by row. */
  ghost predicate SameText(a: seq<Row>, b: seq<Row>) {
    |a| == |b| && forall i | 0 <= i < |a| :: a[i].id == b[i].id && Fields(a[i]) == Fields(b[i])
  }

  ghost predicate SameFields(a: seq<Row>, b: seq<Row>) {
    |a| == |b| && forall i | 0 <= i < |a| :: SameHashedFields(a[i], b[i])
  }

  /** The hash columns are the same. */
  ghost predicate SameChain(a: seq<Row>, b: seq<Row>) {
    |a| == |b| && forall i | 0 <= i < |a| :: a[i].previousHash == b[i].previousHash && a[i].hash == b[i].hash
  }

  lemma LastTextsAgree(suite: Suite, a: seq<Row>, b: seq<Row>)
    requires a != [] && b != [] && Chain(suite, a) && Chain(suite, b) && Head(a) == Head(b)
    requires NoCollision(suite, a, b)
    ensures a[|a| - 1].id == b[|b| - 1].id && Fields(a[|a| - 1]) == Fields(b[|b| - 1])
    ensures Head(Front(a)) == Head(Front(b))
  {
    var m, n := |a| - 1, |b| - 1;
    var p, q := Head(a[..m]), Head(b[..n]);
    HeadHasNoPipe(suite, a[..m]);
    HeadHasNoPipe(suite, b[..n]);
    Injective(suite.sha256(LineAt(a, m)), suite.sha256(LineAt(b, n)));
    LineIdDecodes(a[m], p, b[n], q);
    CutAtSeparator(p, Fields(a[m]), q, Fields(b[n]), '|');
  }

  lemma SameTextSnoc(a: seq<Row>, b: seq<Row>)
    requires a != [] && b != []
    ensures SameText(a, b) <==>
      (SameText(Front(a), Front(b)) && a[|a| - 1].id == b[|b| - 1].id && Fields(a[|a| - 1]) == Fields(b[|b| - 1]))
  {
    hide Fields;
    assert forall i | 0 <= i < |a| - 1 :: a[i] == Front(a)[i];
    assert forall i | 0 <= i < |b| - 1 :: b[i] == Front(b)[i];
  }

  lemma {:induction false} HeadFixesText(suite: Suite, a: seq<Row>, b: seq<Row>)
    requires Chain(suite, a) && Chain(suite, b) && Head(a) == Head(b) && NoCollision(suite, a, b)
    ensures SameText(a, b)
  {
    HeadHasNoPipe(suite, a);
    HeadHasNoPipe(suite, b);
    if a != [] {
      LastTextsAgree(suite, a, b);
      FrontKeepsLines(suite, a, b);
      HeadFixesText(suite, Front(a), Front(b));
      SameTextSnoc(a, b);
    }
  }

  /** Valid logs with the same text have the same hash columns. */
  lemma {:induction false} TextFixesHead(suite: Suite, a: seq<Row>, b: seq<Row>)
    requires Chain(suite, a) && Chain(suite, b) && SameText(a, b)
    ensures Head(a) == Head(b)
    ensures SameChain(a, b)
  {
    if a != [] {
      hide Linked, Fields, SameText, Chain, SameChain;
      LastIsLinked(suite, a);
      LastIsLinked(suite, b);
      SameTextSnoc(a, b);
      TextFixesHead(suite, Front(a), Front(b));
      LinkedAlike(suite, a[|a| - 1], b[|b| - 1], Head(Front(a)));
      SameChainSnoc(a, b);
    }
  }

  lemma LastIsLinked(suite: Suite, rows: seq<Row>)
    requires rows != [] && Chain(suite, rows)
    ensures Chain(suite, Front(rows)) && Linked(suite, rows[|rows| - 1], Head(Front(rows)))
  {
  }

  lemma SameChainSnoc(a: seq<Row>, b: seq<Row>)
    requires a != [] && b != [] && SameChain(Front(a), Front(b))
    requires a[|a| - 1].previousHash == b[|b| - 1].previousHash && a[|a| - 1].hash == b[|b| - 1].hash
    ensures SameChain(a, b)
  {
    assert forall i | 0 <= i < |a| - 1 :: a[i] == Front(a)[i] && b[i] == Front(b)[i];
  }

  lemma LinkedAlike(suite: Suite, r: Row, s: Row, previous: string)
    requires Linked(suite, r, previous) && Linked(suite, s, previous) && r.id == s.id && Fields(r) == Fields(s)
    ensures r.previousHash == s.previousHash && r.hash == s.hash
  {
  }

  /**
   Two valid logs, whoever wrote them and whatever they contain, end in the same hash if and only if they say
   the same between the separators. So a head hash kept elsewhere reveals exactly the changes to that text,
   forged and missing ends included.
   */
  lemma KeptHeadTellsTextsApart(suite: Suite, rows: seq<Row>, other: seq<Row>)
    requires Check(suite, rows) == Intact && Check(suite, other) == Intact && NoCollision(suite, rows, other)
    ensures Head(rows) == Head(other) <==> SameText(rows, other)
  {
    hide Chain, Check, NoCollision, SameText;
    IntactIffChain(suite, rows);
    IntactIffChain(suite, other);
    if Head(rows) == Head(other) {
      HeadFixesText(suite, rows, other);
    }
    if SameText(rows, other) {
      TextFixesHead(suite, rows, other);
    }
  }

  /** Where domains, actions and results have no separator, equal text is equal fields. */
  lemma TextIsFields(a: seq<Row>, b: seq<Row>)
    requires AllPipeFree(a) && AllPipeFree(b)
    ensures SameText(a, b) <==> SameFields(a, b)
  {
    if SameText(a, b) {
      forall i | 0 <= i < |a| ensures SameHashedFields(a[i], b[i]) {
        FieldsDecode(a[i], b[i]);
      }
    }
  }

  /** Among logs without such separators the kept head reveals exactly the changes to the hashed fields. */
  lemma KeptHeadTellsFieldsApart(suite: Suite, rows: seq<Row>, other: seq<Row>)
    requires Check(suite, rows) == Intact && Check(suite, other) == Intact && NoCollision(suite, rows, other)
    requires AllPipeFree(rows) && AllPipeFree(other)
    ensures Head(rows) == Head(other) <==> SameFields(rows, other)
  {
    hide Chain, Check, NoCollision, SameText, SameFields, AllPipeFree;
    KeptHeadTellsTextsApart(suite, rows, other);
    TextIsFields(rows, other);
  }

  /** Without that condition it does not: the edit that moves a separator leaves the head as it was. */
  lemma KeptHeadMissesMovedSeparator(suite: Suite)
    ensures var rows := Append(suite, [], "a@b", "READ", "KV_SECRET", "x|y", "DENIED", "");
            var other := [rows[0].(action := "READ|x", identifier := "y")];
            && AllPipeFree(rows) && Check(suite, rows) == Check(suite, other) == Intact
            && Head(rows) == Head(other) && !SameFields(rows, other)
  {
    MovedSeparatorIsInvisible(suite);
    assert IndexOf("a@b", '@') == 1;
  }

  /** A verifying log is fixed by its head: equal heads mean equal length and equal rows on the hashed fields. */
  lemma HeadFixesLog(suite: Suite, a: seq<Row>, b: seq<Row>)
    requires Chain(suite, a) && Chain(suite, b) && Head(a) == Head(b)
    requires NoCollision(suite, a, b) && AllPipeFree(a) && AllPipeFree(b)
    ensures SameFields(a, b) && SameChain(a, b)
  {
    hide Chain, NoCollision, AllPipeFree, SameText, SameFields, SameChain;
    HeadFixesText(suite, a, b);
    TextFixesHead(suite, a, b);
    TextIsFields(a, b);
  }

  lemma FrontKeepsLines(suite: Suite, a: seq<Row>, b: seq<Row>)
    requires a != [] && b != [] && NoCollision(suite, a, b)
    ensures NoCollision(suite, Front(a), Front(b))
  {
    hide Line;
    forall i: nat, j: nat | i < |Front(a)| && j < |Front(b)|
      ensures LineAt(Front(a), i) == LineAt(a, i) && LineAt(Front(b), j) == LineAt(b, j)
    {
      assert Front(a)[..i] == a[..i] && Front(b)[..j] == b[..j];
    }
  }

  lemma {:induction false} SuffixLinks(suite: Suite, rows: seq<Row>, i: nat)
    requires i < |rows| && Chain(suite, rows)
    ensures Chain(suite, rows[..i]) && Linked(suite, rows[i], Head(rows[..i]))
  {
    ChainPrefix(suite, rows, i + 1);
    assert Front(rows[..i + 1]) == rows[..i];
  }

  /** Replacing one row by another with the same hash columns: all later links still fit. */
  lemma {:induction false} LinkedEditKeepsChain(suite: Suite, rows: seq<Row>, i: nat, edited: Row)
    requires i < |rows| && Chain(suite, rows) && edited.hash == rows[i].hash
    requires Linked(suite, edited, Head(rows[..i]))
    ensures Chain(suite, rows[i := edited])
  {
    hide Linked;
    var rows' := rows[i := edited];
    if i == |rows| - 1 {
      assert Front(rows') == Front(rows) == rows[..i];
    } else {
      var front := Front(rows);
      assert front[..i] == rows[..i];
      LinkedEditKeepsChain(suite, front, i, edited);
      assert Front(rows') == front[i := edited];
      assert Head(Front(rows')) == Head(front);
    }
  }

  /**
   Editing one row of a valid log, id and hash columns untouched, is reported at that row exactly when the
   hashed line changes; otherwise the log still verifies.
   */
  lemma EditIsReported(suite: Suite, rows: seq<Row>, i: nat, edited: Row)
    requires i < |rows| && Check(suite, rows) == Intact
    requires edited.id == rows[i].id && edited.previousHash == rows[i].previousHash && edited.hash == rows[i].hash
    requires suite.sha256(Line(edited, Head(rows[..i]))) == suite.sha256(LineAt(rows, i)) ==>
      Line(edited, Head(rows[..i])) == LineAt(rows, i)
    ensures Check(suite, rows[i := edited]) ==
      if Fields(edited) == Fields(rows[i]) then Intact else Broken(rows[i].id, false)
  {
    IntactIffChain(suite, rows);
    SuffixLinks(suite, rows, i);
    var previous := Head(rows[..i]);
    var rows' := rows[i := edited];
    if Fields(edited) == Fields(rows[i]) {
      LinkedEditKeepsChain(suite, rows, i, edited);
      IntactIffChain(suite, rows');
    } else {
      if HashText(suite, Line(edited, previous)) == edited.hash {
        Injective(suite.sha256(Line(edited, previous)), suite.sha256(LineAt(rows, i)));
        LineIdDecodes(edited, previous, rows[i], previous);
        HeadHasNoPipe(suite, rows[..i]);
        CutAtSeparator(previous, Fields(edited), previous, Fields(rows[i]), '|');
      }
      assert rows'[..i] == rows[..i];
      BreakIsReported(suite, rows', i);
    }
  }

  /**
   Replacing one row of a valid log by any row at all goes unnoticed exactly when the new row links to the
   rows before it and, unless it is the last, keeps the hash its successor points to.
   */
  lemma ReplacementIsReported(suite: Suite, rows: seq<Row>, i: nat, edited: Row)
    requires i < |rows| && Check(suite, rows) == Intact
    ensures Check(suite, rows[i := edited]) == Intact <==>
      Linked(suite, edited, Head(rows[..i])) && (i + 1 < |rows| ==> edited.hash == rows[i].hash)
  {
    hide Linked, Check;
    var rows' := rows[i := edited];
    IntactIffChain(suite, rows);
    IntactIffChain(suite, rows');
    SuffixLinks(suite, rows, i);
    assert rows'[..i] == rows[..i];
    if Chain(suite, rows') {
      SuffixLinks(suite, rows', i);
      if i + 1 < |rows| {
        SuccessorPointsBack(suite, rows, i);
        SuccessorPointsBack(suite, rows', i);
      }
    }
    if Linked(suite, edited, Head(rows[..i])) && (i + 1 < |rows| ==> edited.hash == rows[i].hash) {
      if i + 1 < |rows| {
        LinkedEditKeepsChain(suite, rows, i, edited);
      } else {
        assert Front(rows') == rows[..i];
      }
    }
  }

  lemma SuccessorPointsBack(suite: Suite, rows: seq<Row>, i: nat)
    requires i + 1 < |rows| && Chain(suite, rows)
    ensures rows[i + 1].previousHash == rows[i].hash
  {
    SuffixLinks(suite, rows, i + 1);
  }

  /** The checker accepts exactly the logs that the backfill would leave as they are. */
  lemma {:induction false} IntactIffReplayed(suite: Suite, rows: seq<Row>)
    ensures Check(suite, rows) == Intact <==> Replay(suite, rows) == rows
  {
    IntactIffChain(suite, rows);
    ReplayIsChain(suite, rows);
    if Chain(suite, rows) {
      ReplayFixesChain(suite, rows);
    }
  }

  lemma {:induction false} ReplayKeepsPrefix(suite: Suite, rows: seq<Row>, forged: seq<Row>)
    requires Chain(suite, rows)
    ensures rows <= Replay(suite, rows + forged)
  {
    if forged == [] {
      ReplayFixesChain(suite, rows);
      assert rows + forged == rows;
    } else {
      assert Front(rows + forged) == rows + Front(forged);
      ReplayKeepsPrefix(suite, rows, Front(forged));
    }
  }

  lemma {:induction false} ReplayKeepsEvents(suite: Suite, rows: seq<Row>, i: nat)
    requires i < |rows|
    ensures var row := Replay(suite, rows)[i];
            rows[i] == row.(previousHash := rows[i].previousHash, hash := rows[i].hash)
  {
    if i < |rows| - 1 {
      ReplayKeepsEvents(suite, Front(rows), i);
    }
  }

  /**
   The chain has no key: whoever can write the table can replace the end of a valid log by any rows, link
   them again, and the checker is satisfied. The rows before stay as they were, the forged ones tell whatever
   the forger likes.
   */
  lemma RelinkedEndIsInvisible(suite: Suite, rows: seq<Row>, i: nat, forged: seq<Row>)
    requires i <= |rows| && Check(suite, rows) == Intact
    ensures var forgery := Replay(suite, rows[..i] + forged);
            && Check(suite, forgery) == Intact && forgery[..i] == rows[..i]
            && forall k | 0 <= k < |forged| ::
                 forged[k] == forgery[i + k].(previousHash := forged[k].previousHash, hash := forged[k].hash)
  {
    hide Check, Chain, Replay;
    var written := rows[..i] + forged;
    IntactIffChain(suite, rows);
    ChainPrefix(suite, rows, i);
    ReplayKeepsPrefix(suite, rows[..i], forged);
    ReplayIsChain(suite, written);
    IntactIffChain(suite, Replay(suite, written));
    forall k | 0 <= k < |forged|
      ensures forged[k] == Replay(suite, written)[i + k].(previousHash := forged[k].previousHash,
        hash := forged[k].hash)
    {
      ReplayKeepsEvents(suite, written, i + k);
    }
  }

  /** A concrete forgery: the one row of a log now blames somebody else, its hash recomputed. */
  lemma ForgedRowIsInvisible(suite: Suite)
    ensures var rows := Append(suite, [], "eve@x.org", "READ", "KV_SECRET", "secret/bob@x.org/k", "DENIED", "");
            var forged := Append(suite, [], "bob@x.org", "READ", "KV_SECRET", "secret/bob@x.org/k", "DENIED", "");
            && |forged| == |rows| == 1 && forged[0].id == rows[0].id && forged[0].previousHash == rows[0].previousHash
            && !SameHashedFields(forged[0], rows[0])
            && Check(suite, rows) == Check(suite, forged) == Intact
  {
    var rows := Append(suite, [], "eve@x.org", "READ", "KV_SECRET", "secret/bob@x.org/k", "DENIED", "");
    var forged := Append(suite, [], "bob@x.org", "READ", "KV_SECRET", "secret/bob@x.org/k", "DENIED", "");
    assert Front(rows) == [] && Front(forged) == [];
    assert "eve@x.org"[0] != "bob@x.org"[0];
  }

  /** With no separator in the domain, action or result, every change to a hashed field alone is reported at its row. */
  lemma FieldEditIsReported(suite: Suite, rows: seq<Row>, i: nat, edited: Row)
    requires i < |rows| && Check(suite, rows) == Intact && PipeFree(rows[i]) && PipeFree(edited)
    requires edited.id == rows[i].id && edited.previousHash == rows[i].previousHash && edited.hash == rows[i].hash
    requires suite.sha256(Line(edited, Head(rows[..i]))) == suite.sha256(LineAt(rows, i)) ==>
      Line(edited, Head(rows[..i])) == LineAt(rows, i)
    ensures Check(suite, rows[i := edited]) ==
      if SameHashedFields(edited, rows[i]) then Intact else Broken(rows[i].id, false)
  {
    EditIsReported(suite, rows, i, edited);
    if Fields(edited) == Fields(rows[i]) {
      FieldsDecode(edited, rows[i]);
    }
  }

  /** Without that condition the claim is false: moving a separator between two fields goes unnoticed. */
  lemma MovedSeparatorIsInvisible(suite: Suite)
    ensures var rows := Append(suite, [], "a@b", "READ", "KV_SECRET", "x|y", "DENIED", "");
            var edited := rows[0].(action := "READ|x", identifier := "y");
            && !SameHashedFields(edited, rows[0])
            && Check(suite, rows) == Check(suite, [edited]) == Intact
  {
    var rows := Append(suite, [], "a@b", "READ", "KV_SECRET", "x|y", "DENIED", "");
    var edited := rows[0].(action := "READ|x", identifier := "y");
    assert Join("READ|x", '|', Join("y", '|', "DENIED")) == Join("READ", '|', Join("x|y", '|', "DENIED"));
    assert Front(rows) == [] && Front([edited]) == [];
  }

  /** Rows with different ids never carry the same hash. */
  lemma HashesDiffer(suite: Suite, rows: seq<Row>, i: nat, j: nat)
    requires i < |rows| && j < |rows| && rows[i].id != rows[j].id
    requires Linked(suite, rows[i], Head(rows[..i])) && Linked(suite, rows[j], Head(rows[..j]))
    requires NoCollision(suite, rows, rows)
    ensures rows[i].hash != rows[j].hash
  {
    if rows[i].hash == rows[j].hash {
      Injective(suite.sha256(LineAt(rows, i)), suite.sha256(LineAt(rows, j)));
      LineIdDecodes(rows[i], Head(rows[..i]), rows[j], Head(rows[..j]));
    }
  }

  lemma PreviousDiffers(suite: Suite, rows: seq<Row>, i: nat)
    requires i + 1 < |rows| && Chain(suite, rows) && NoCollision(suite, rows, rows)
    requires i > 0 ==> rows[i - 1].id != rows[i].id
    ensures Chain(suite, rows[..i]) && rows[i + 1].previousHash != Head(rows[..i])
  {
    SuffixLinks(suite, rows, i);
    SuffixLinks(suite, rows, i + 1);
    HashTextShape(suite, LineAt(rows, i));
    if i > 0 {
      SuffixLinks(suite, rows, i - 1);
      HashesDiffer(suite, rows, i - 1, i);
    }
  }

  /** Deleting a row that is not the last is reported at its successor. */
  lemma DeletionIsReported(suite: Suite, rows: seq<Row>, i: nat)
    requires i + 1 < |rows| && Check(suite, rows) == Intact
    requires i > 0 ==> rows[i - 1].id != rows[i].id
    requires NoCollision(suite, rows, rows)
    ensures Check(suite, rows[..i] + rows[i + 1..]) == Broken(rows[i + 1].id, true)
  {
    IntactIffChain(suite, rows);
    PreviousDiffers(suite, rows, i);
    var cut := rows[..i] + rows[i + 1..];
    assert cut[..i] == rows[..i] && cut[i] == rows[i + 1];
    BreakIsReported(suite, cut, i);
  }
}
