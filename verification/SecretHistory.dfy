/** What is stored, and how every KV call is answered, told from earlier requests and answers alone. */
module SecretHistory {
  import opened Basics
  import opened Text
  import opened Validation
  import opened Crypto
  import opened SecretsModel
  import opened System
  import opened LockHistory

  /** Too long, empty, with a parent directory, a backslash or a NUL, or outside the common namespace. */
  predicate Malformed(path: string) {
    |path| > 512 || path == "" || Contains(path, "..") || '\\' in path || 0 as char in path || !("secret/" <= path)
  }

  /** The path is the address's namespace and something more. */
  ghost predicate Within(path: string, email: string) {
    exists rest :: rest != "" && path == "secret/" + email + "/" + rest
  }

  /** Malformed paths are invalid for everybody; of the others each address may use those within its namespace. */
  lemma PathAnswered(path: string, email: string)
    ensures ValidatePath(path, email) ==
      if Malformed(path) then Err(ValidationError)
      else if Within(path, email) then Ok(())
      else Err(PermissionDenied)
  {
    var prefix := "secret/" + email + "/";
    assert Namespace(email) == prefix;
    if Namespace(email) <= path && |path| > |prefix| {
      assert path == "secret/" + email + "/" + path[|prefix|..];
    }
    if Within(path, email) {
      var rest :| rest != "" && path == "secret/" + email + "/" + rest;
      assert path == prefix + rest;
    }
  }

  ghost predicate WritesAt(suite: Suite, requests: seq<Request>, i: nat, path: string)
    requires i < |requests|
  {
    requests[i].As? && requests[i].use.Kv? && requests[i].use.kv.KvWrite? && requests[i].use.kv.path == path
    && Answer(suite, requests, i).Written?
  }

  ghost predicate DeletesAt(suite: Suite, requests: seq<Request>, i: nat, path: string)
    requires i < |requests|
  {
    requests[i].As? && requests[i].use == Kv(KvDelete(path)) && Answer(suite, requests, i) == Done
  }

  /** What was written to the path since it was last deleted, in order. */
  ghost function Written(suite: Suite, requests: seq<Request>, j: nat, path: string): seq<Value>
    requires j <= |requests|
  {
    if j == 0 then []
    else if DeletesAt(suite, requests, j - 1, path) then []
    else if WritesAt(suite, requests, j - 1, path) then
      Written(suite, requests, j - 1, path) + [Value(requests[j - 1].use.kv.data, requests[j - 1].now)]
    else Written(suite, requests, j - 1, path)
  }

  function ValuesAt(secrets: Secrets, path: string): seq<Value> {
    if path in secrets then secrets[path] else []
  }

  lemma KvStepValues(unlocked: bool, secrets: Secrets, email: string, call: KvCall, now: Time, path: string)
    ensures var (secrets', response) := KvStep(unlocked, secrets, email, call, now);
            ValuesAt(secrets', path) ==
              if call == KvDelete(path) && response == Done then []
              else if call.KvWrite? && call.path == path && response.Written? then
                ValuesAt(secrets, path) + [Value(call.data, now)]
              else ValuesAt(secrets, path)
  {
    hide ValidatePath;
  }

  lemma ValuesStep(suite: Suite, requests: seq<Request>, i: nat, path: string)
    requires i < |requests|
    ensures ValuesAt(Before(suite, requests, i + 1).secrets, path) ==
      if DeletesAt(suite, requests, i, path) then []
      else if WritesAt(suite, requests, i, path) then
        ValuesAt(Before(suite, requests, i).secrets, path) + [Value(requests[i].use.kv.data, requests[i].now)]
      else ValuesAt(Before(suite, requests, i).secrets, path)
  {
    OneStep(suite, requests, i);
    hide Before, KvStep, KeyStep, VaultStep, Audited;
    var s, request := Before(suite, requests, i), requests[i];
    if request.As? && request.use.Kv? {
      KvStepValues(s.core.unlocked, s.secrets, request.email, request.use.kv, request.now, path);
    }
  }

  /** The store holds exactly what was written and not deleted. */
  lemma {:induction false} StoreIsWritten(suite: Suite, requests: seq<Request>, j: nat, path: string)
    requires j <= |requests|
    ensures ValuesAt(Before(suite, requests, j).secrets, path) == Written(suite, requests, j, path)
  {
    hide Before, WritesAt, DeletesAt;
    if j == 0 {
      AtStart(suite, requests);
    } else {
      StoreIsWritten(suite, requests, j - 1, path);
      ValuesStep(suite, requests, j - 1, path);
    }
  }

  /** The refusals that all calls on a path share, in their order. */
  ghost function Refusal(suite: Suite, requests: seq<Request>, j: nat, path: string): Option<Error>
    requires j < |requests| && requests[j].As?
  {
    if Malformed(path) then Some(ValidationError)
    else if !Within(path, requests[j].email) then Some(PermissionDenied)
    else if !IsOpen(suite, requests, j) then Some(VaultLocked)
    else None
  }

  lemma AdmitAnswered(suite: Suite, requests: seq<Request>, j: nat, path: string)
    requires j < |requests| && requests[j].As?
    ensures var admitted := Admit(Before(suite, requests, j).core.unlocked, path, requests[j].email);
            match Refusal(suite, requests, j, path)
            case Some(e) => admitted == Err(e)
            case None => admitted == Ok(())
  {
    PathAnswered(path, requests[j].email);
    OpenExactly(suite, requests, j);
    hide Before, IsOpen, ValidatePath, Malformed, Within;
  }

  predicate Asks(request: Request, call: KvCall) {
    request.As? && request.use == Kv(call)
  }

  /** A write of at most 1048576 bytes is the next version after what was written since the last deletion. */
  lemma WriteAnswered(suite: Suite, requests: seq<Request>, j: nat, path: string, data: Bytes, nonce: Nonce)
    requires j < |requests| && Asks(requests[j], KvWrite(path, data, nonce))
    ensures var written := Written(suite, requests, j, path);
            Answer(suite, requests, j) ==
              match Refusal(suite, requests, j, path)
              case Some(e) => Failed(e)
              case None =>
                if |data| > 1048576 then Failed(ValidationError)
                else if written == [] then Response.Written(Receipt(path, 1, requests[j].now, requests[j].now))
                else Response.Written(Receipt(path, |written| + 1, written[0].writtenAt, requests[j].now))
  {
    AdmitAnswered(suite, requests, j, path);
    StoreIsWritten(suite, requests, j, path);
    hide Before, Admit, Refusal, Written;
  }

  /** A reading returns the N-th value written since the last deletion, or the last one. */
  lemma ReadAnswered(suite: Suite, requests: seq<Request>, j: nat, path: string, version: Option<int>)
    requires j < |requests| && Asks(requests[j], KvRead(path, version))
    ensures var written := Written(suite, requests, j, path);
            Answer(suite, requests, j) ==
              match Refusal(suite, requests, j, path)
              case Some(e) => Failed(e)
              case None =>
                if written == [] then Failed(NotFound)
                else if version == None then Found(Reading(path, |written|, written[|written| - 1].data))
                else if version.value < 1 then Failed(ValidationError)
                else if version.value > |written| then Failed(NotFound)
                else Found(Reading(path, version.value, written[version.value - 1].data))
  {
    AdmitAnswered(suite, requests, j, path);
    StoreIsWritten(suite, requests, j, path);
    hide Before, Admit, Refusal, Written;
  }

  /** The versions are 1..n with the times of their writes. */
  lemma VersionsAnswered(suite: Suite, requests: seq<Request>, j: nat, path: string)
    requires j < |requests| && Asks(requests[j], KvVersions(path))
    ensures var written := Written(suite, requests, j, path);
            match Refusal(suite, requests, j, path)
            case Some(e) => Answer(suite, requests, j) == Failed(e)
            case None =>
              if written == [] then Answer(suite, requests, j) == Failed(NotFound)
              else
                && Answer(suite, requests, j).History?
                && var versions := Answer(suite, requests, j).versions;
                   && |versions| == |written|
                   && forall i | 0 <= i < |versions| :: versions[i] == VersionInfo(i + 1, written[i].writtenAt)
  {
    AdmitAnswered(suite, requests, j, path);
    StoreIsWritten(suite, requests, j, path);
    hide Before, Admit, Refusal, Written;
  }

  lemma DeleteAnswered(suite: Suite, requests: seq<Request>, j: nat, path: string)
    requires j < |requests| && Asks(requests[j], KvDelete(path))
    ensures Answer(suite, requests, j) ==
      match Refusal(suite, requests, j, path)
      case Some(e) => Failed(e)
      case None => if Written(suite, requests, j, path) == [] then Failed(NotFound) else Done
  {
    AdmitAnswered(suite, requests, j, path);
    StoreIsWritten(suite, requests, j, path);
    hide Before, Admit, Refusal, Written;
  }

  /** The receipt of a listed path tells how often it was written since the last deletion, and when. */
  ghost predicate Tells(receipt: Receipt, written: seq<Value>) {
    written != [] && receipt == Receipt(receipt.path, |written|, written[0].writtenAt, written[|written| - 1].writtenAt)
  }

  /** The address has something stored at the path. */
  ghost predicate Keeps(suite: Suite, requests: seq<Request>, j: nat, email: string, path: string)
    requires j <= |requests|
  {
    !Malformed(path) && Within(path, email) && Written(suite, requests, j, path) != []
  }

  lemma PathsAreKept(suite: Suite, requests: seq<Request>, j: nat, email: string, path: string)
    requires j <= |requests|
    ensures path in PathsOf(Before(suite, requests, j).secrets, email) <==> Keeps(suite, requests, j, email, path)
  {
    PathAnswered(path, email);
    StoreIsWritten(suite, requests, j, path);
    hide Before, ValidatePath, Malformed, Within, Written;
  }

  lemma ListStep(suite: Suite, s: State, request: Request)
    requires Asks(request, KvList)
    ensures Step(suite, s, request).1 ==
      if s.core.unlocked then Listing(Summaries(s.secrets, Sorted(PathsOf(s.secrets, request.email))))
      else Failed(VaultLocked)
  {
    hide PathsOf, Sorted, Summaries;
  }

  lemma ReceiptTells(suite: Suite, requests: seq<Request>, j: nat, path: string)
    requires j <= |requests| && path in Before(suite, requests, j).secrets
    ensures var receipt := Summary(path, Before(suite, requests, j).secrets[path]);
            receipt.path == path && Tells(receipt, Written(suite, requests, j, path))
  {
    StoreIsWritten(suite, requests, j, path);
    hide Before, Written;
  }

  /** A listing has exactly the paths where the address has something stored, in strict order. */
  lemma ListAnswered(suite: Suite, requests: seq<Request>, j: nat) returns (receipts: seq<Receipt>)
    requires j < |requests| && Asks(requests[j], KvList)
    ensures Answer(suite, requests, j) == if IsOpen(suite, requests, j) then Listing(receipts) else Failed(VaultLocked)
    ensures forall i, k | 0 <= i < k < |receipts| ::
      Precedes(receipts[i].path, receipts[k].path) && receipts[i].path != receipts[k].path
    ensures forall i | 0 <= i < |receipts| :: Tells(receipts[i], Written(suite, requests, j, receipts[i].path))
    ensures forall path ::
      Keeps(suite, requests, j, requests[j].email, path) <==> exists i ::
        0 <= i < |receipts| && receipts[i].path == path
  {
    OpenExactly(suite, requests, j);
    hide Before, Step, IsOpen, Written, Keeps, Tells, Precedes, Sorted, PathsOf, Summary;
    var s, email := Before(suite, requests, j), requests[j].email;
    ListStep(suite, s, requests[j]);
    var paths := PathsOf(s.secrets, email);
    var sorted := Sorted(paths);
    receipts := Summaries(s.secrets, sorted);
    forall i | 0 <= i < |sorted|
      ensures sorted[i] in paths && receipts[i].path == sorted[i]
      ensures Tells(receipts[i], Written(suite, requests, j, sorted[i]))
    {
      SortedIsComplete(paths, sorted[i]);
      StoredPath(s.secrets, email, sorted[i]);
      ReceiptTells(suite, requests, j, sorted[i]);
    }
    forall i, k | 0 <= i < k < |sorted|
      ensures Precedes(sorted[i], sorted[k]) && sorted[i] != sorted[k]
    {
      SortedIsOrdered(paths, i, k);
    }
    forall path
      ensures Keeps(suite, requests, j, email, path) <==> exists i :: 0 <= i < |sorted| && sorted[i] == path
    {
      PathsAreKept(suite, requests, j, email, path);
      SortedIsComplete(paths, path);
    }
  }

  lemma StoredPath(secrets: Secrets, email: string, path: string)
    requires path in PathsOf(secrets, email)
    ensures path in secrets
  {
  }
}
