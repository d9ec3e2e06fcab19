/** A stored value stays readable under its version until its path is deleted, and deletion forgets everything. */
module SecretTheorems {
  import opened Basics
  import opened Validation
  import opened Crypto
  import opened SecretsModel
  import opened System

  ghost predicate Stored(secrets: Secrets, path: string, version: nat, value: Value) {
    path in secrets && 1 <= version <= |secrets[path]| && secrets[path][version - 1] == value
  }

  /** The request deleted this path. */
  ghost predicate Deletes(suite: Suite, s: State, request: Request, path: string) {
    request.As? && request.use == Kv(KvDelete(path)) && Step(suite, s, request).1 == Done
  }

  /** The request wrote to this path. */
  ghost predicate Writes(suite: Suite, s: State, request: Request, path: string) {
    request.As? && request.use.Kv? && request.use.kv.KvWrite? && request.use.kv.path == path
      && Step(suite, s, request).1.Written?
  }

  lemma KvStepKeepsValue(unlocked: bool, secrets: Secrets, email: string, call: KvCall, now: Time, path: string,
    version: nat, value: Value)
    requires Stored(secrets, path, version, value)
    requires !(call == KvDelete(path) && KvStep(unlocked, secrets, email, call, now).1 == Done)
    ensures Stored(KvStep(unlocked, secrets, email, call, now).0, path, version, value)
  {
    hide ValidatePath;
  }

  lemma StepKeepsValue(suite: Suite, s: State, request: Request, path: string, version: nat, value: Value)
    requires Stored(s.secrets, path, version, value) && !Deletes(suite, s, request, path)
    ensures Stored(Step(suite, s, request).0.secrets, path, version, value)
  {
    hide KvStep, KeyStep, Audited, VaultStep, Stored;
    if request.As? && request.use.Kv? {
      KvStepKeepsValue(s.core.unlocked, s.secrets, request.email, request.use.kv, request.now, path, version, value);
    }
  }

  lemma {:induction false} ValueStays(suite: Suite, requests: seq<Request>, i: nat, j: nat, path: string, version: nat,
    value: Value)
    requires i <= j <= |requests| && Stored(Before(suite, requests, i).secrets, path, version, value)
    requires forall k | i <= k < j :: !Deletes(suite, Before(suite, requests, k), requests[k], path)
    ensures Stored(Before(suite, requests, j).secrets, path, version, value)
  {
    hide Before, Step, Stored, Deletes;
    if i < j {
      ValueStays(suite, requests, i, j - 1, path, version, value);
      OneStep(suite, requests, j - 1);
      StepKeepsValue(suite, Before(suite, requests, j - 1), requests[j - 1], path, version, value);
    }
  }

  lemma WriteStores(suite: Suite, s: State, request: Request, path: string)
    requires Writes(suite, s, request, path)
    ensures var receipt := Step(suite, s, request).1.receipt;
            && receipt.path == path && Owns(request.email, path)
            && receipt.version == (if path in s.secrets then |s.secrets[path]| else 0) + 1
            && Stored(Step(suite, s, request).0.secrets, path, receipt.version, Value(request.use.kv.data, request.now))
  {
    hide ValidatePath, Audited;
  }

  lemma ReadStep(suite: Suite, s: State, request: Request, path: string, version: nat, value: Value)
    requires request.As? && request.use == Kv(KvRead(path, Some(version))) && Owns(request.email, path)
    requires Stored(s.secrets, path, version, value)
    ensures Step(suite, s, request).1 ==
      if s.core.unlocked then Found(Reading(path, version, value.data)) else Failed(VaultLocked)
  {
    hide ValidatePath, Audited;
  }

  /** The N-th value written to a path is what reading version N returns, until the path is deleted. */
  lemma WrittenStaysReadable(suite: Suite, requests: seq<Request>, i: nat, j: nat, path: string, version: nat)
    requires i < j < |requests| && Writes(suite, Before(suite, requests, i), requests[i], path)
    requires Answer(suite, requests, i).receipt.version == version
    requires requests[j].As? && requests[j].email == requests[i].email
      && requests[j].use == Kv(KvRead(path, Some(version)))
    requires forall k | i < k < j :: !Deletes(suite, Before(suite, requests, k), requests[k], path)
    ensures Answer(suite, requests, j) ==
      if Before(suite, requests, j).core.unlocked then Found(Reading(path, version, requests[i].use.kv.data))
      else Failed(VaultLocked)
  {
    OneStep(suite, requests, i);
    hide Before, Step, Deletes, Stored, ValidatePath;
    WriteStores(suite, Before(suite, requests, i), requests[i], path);
    var value := Value(requests[i].use.kv.data, requests[i].now);
    ValueStays(suite, requests, i + 1, j, path, version, value);
    ReadStep(suite, Before(suite, requests, j), requests[j], path, version, value);
  }

  /** A value that a step adds to the store was written, and answered with its version, in that very step. */
  lemma KvStepNewValue(unlocked: bool, secrets: Secrets, email: string, call: KvCall, now: Time, path: string,
    version: nat, value: Value)
    requires !Stored(secrets, path, version, value)
      && Stored(KvStep(unlocked, secrets, email, call, now).0, path, version, value)
    ensures call.KvWrite? && call.path == path && value == Value(call.data, now)
    ensures KvStep(unlocked, secrets, email, call, now).1.Written?
      && KvStep(unlocked, secrets, email, call, now).1.receipt.version == version
  {
    hide ValidatePath;
  }

  lemma StepNewValue(suite: Suite, s: State, request: Request, path: string, version: nat, value: Value)
    requires !Stored(s.secrets, path, version, value) && Stored(Step(suite, s, request).0.secrets, path, version, value)
    ensures Writes(suite, s, request, path) && Step(suite, s, request).1.receipt.version == version
    ensures value == Value(request.use.kv.data, request.now)
  {
    hide KvStep, KeyStep, Audited, VaultStep, Stored;
    KvStepNewValue(s.core.unlocked, s.secrets, request.email, request.use.kv, request.now, path, version, value);
  }

  /** The request wrote this value as this version of the path. */
  ghost predicate WroteVersion(suite: Suite, s: State, request: Request, path: string, version: nat, value: Value) {
    && Writes(suite, s, request, path) && Step(suite, s, request).1.receipt.version == version
    && value == Value(request.use.kv.data, request.now)
  }

  /** Every stored version was written by an earlier request, and its path was not deleted since. */
  lemma {:induction false} StoredWasWritten(suite: Suite, requests: seq<Request>, n: nat, path: string, version: nat,
    value: Value)
    returns (i: nat)
    requires n <= |requests| && Stored(Before(suite, requests, n).secrets, path, version, value)
    ensures i < n && WroteVersion(suite, Before(suite, requests, i), requests[i], path, version, value)
    ensures forall k | i < k < n :: !Deletes(suite, Before(suite, requests, k), requests[k], path)
  {
    StartHasNothing(suite, requests, path, version, value);
    hide Before, Step, Stored, Writes, Deletes;
    i := n - 1;
    var s := Before(suite, requests, i);
    OneStep(suite, requests, i);
    if Stored(s.secrets, path, version, value) {
      if Deletes(suite, s, requests[i], path) {
        DeletedIsNotStored(suite, s, requests[i], path, version, value);
      }
      i := StoredWasWritten(suite, requests, i, path, version, value);
    } else {
      StepNewValue(suite, s, requests[i], path, version, value);
    }
  }

  lemma StartHasNothing(suite: Suite, requests: seq<Request>, path: string, version: nat, value: Value)
    ensures !Stored(Before(suite, requests, 0).secrets, path, version, value)
  {
    assert requests[..0] == [];
  }

  lemma DeletedIsNotStored(suite: Suite, s: State, request: Request, path: string, version: nat, value: Value)
    requires Deletes(suite, s, request, path)
    ensures !Stored(Step(suite, s, request).0.secrets, path, version, value)
  {
    hide Step;
    DeleteForgets(suite, s, request, path);
  }

  predicate AsksRead(request: Request, path: string) {
    request.As? && request.use.Kv? && request.use.kv.KvRead? && request.use.kv.path == path
  }

  lemma FoundIsStored(suite: Suite, s: State, request: Request, path: string) returns (value: Value)
    requires AsksRead(request, path) && Step(suite, s, request).1.Found?
    ensures var reading := Step(suite, s, request).1.reading;
            && reading.path == path && Owns(request.email, path) && value.data == reading.data
            && Stored(s.secrets, path, reading.version, value)
            && (request.use.kv.version == Some(reading.version)
                || (request.use.kv.version == None && |s.secrets[path]| == reading.version))
  {
    hide ValidatePath, Audited;
    value := s.secrets[path][Step(suite, s, request).1.reading.version - 1];
  }

  lemma WriterOwns(suite: Suite, s: State, request: Request, path: string)
    requires Writes(suite, s, request, path)
    ensures request.As? && Owns(request.email, path)
  {
    hide Step;
    WriteStores(suite, s, request, path);
  }

  /**
   A reading returns what an earlier write of the same user to the same path stored under the version it
   names, with no deletion since; a reading without a version returns the newest write.
   */
  lemma ReadWasWritten(suite: Suite, requests: seq<Request>, j: nat, path: string) returns (i: nat)
    requires j < |requests| && AsksRead(requests[j], path) && Answer(suite, requests, j).Found?
    requires forall k | 0 <= k < |requests| :: Admissible(requests[k])
    ensures i < j && Writes(suite, Before(suite, requests, i), requests[i], path)
      && requests[i].email == requests[j].email
    ensures var reading := Answer(suite, requests, j).reading;
            && reading == Reading(path, Answer(suite, requests, i).receipt.version, requests[i].use.kv.data)
            && (requests[j].use.kv.version == None || requests[j].use.kv.version == Some(reading.version))
    ensures forall k | i < k < j :: !Deletes(suite, Before(suite, requests, k), requests[k], path)
    ensures requests[j].use.kv.version == None ==>
      forall k | i < k < j :: !Writes(suite, Before(suite, requests, k), requests[k], path)
  {
    hide Before, Step, Stored, Writes, Deletes, ValidatePath, ValidEmail;
    var value := FoundIsStored(suite, Before(suite, requests, j), requests[j], path);
    var version := Answer(suite, requests, j).reading.version;
    i := StoredWasWritten(suite, requests, j, path, version, value);
    WriterOwns(suite, Before(suite, requests, i), requests[i], path);
    assert Admissible(requests[i]) && Admissible(requests[j]);
    OwnerIsUnique(path, requests[i].email, requests[j].email);
    if requests[j].use.kv.version == None {
      forall k | i < k < j
        ensures !Writes(suite, Before(suite, requests, k), requests[k], path)
      {
        if Writes(suite, Before(suite, requests, k), requests[k], path) {
          LaterWriteIsLonger(suite, requests, i, k, j, path, version, value);
        }
      }
    }
  }

  /** A write after another one, with no deletion up to j, makes the list longer than the first one's version. */
  lemma LaterWriteIsLonger(suite: Suite, requests: seq<Request>, i: nat, k: nat, j: nat, path: string, version: nat,
    value: Value)
    requires i < k < j <= |requests| && WroteVersion(suite, Before(suite, requests, i), requests[i], path, version,
      value)
    requires Writes(suite, Before(suite, requests, k), requests[k], path)
    requires forall n | i < n < j :: !Deletes(suite, Before(suite, requests, n), requests[n], path)
    ensures path in Before(suite, requests, j).secrets && |Before(suite, requests, j).secrets[path]| > version
  {
    hide Before, Step, Deletes, ValidatePath;
    WriteStores(suite, Before(suite, requests, i), requests[i], path);
    OneStep(suite, requests, i);
    ValueStays(suite, requests, i + 1, k, path, version, value);
    WriteStores(suite, Before(suite, requests, k), requests[k], path);
    OneStep(suite, requests, k);
    var receipt := Step(suite, Before(suite, requests, k), requests[k]).1.receipt;
    ValueStays(suite, requests, k + 1, j, path, receipt.version, Value(requests[k].use.kv.data, requests[k].now));
  }

  lemma KvStepKeepsAbsence(unlocked: bool, secrets: Secrets, email: string, call: KvCall, now: Time, path: string)
    requires path !in secrets && path in KvStep(unlocked, secrets, email, call, now).0
    ensures call.KvWrite? && call.path == path && KvStep(unlocked, secrets, email, call, now).1.Written?
  {
    hide ValidatePath;
  }

  lemma StepKeepsAbsence(suite: Suite, s: State, request: Request, path: string)
    requires path !in s.secrets && !Writes(suite, s, request, path)
    ensures path !in Step(suite, s, request).0.secrets
  {
    hide KvStep, KeyStep, Audited, VaultStep;
    if request.As? && request.use.Kv?
      && path in KvStep(s.core.unlocked, s.secrets, request.email, request.use.kv, request.now).0 {
      KvStepKeepsAbsence(s.core.unlocked, s.secrets, request.email, request.use.kv, request.now, path);
    }
  }

  lemma {:induction false} AbsenceStays(suite: Suite, requests: seq<Request>, i: nat, j: nat, path: string)
    requires i <= j <= |requests| && path !in Before(suite, requests, i).secrets
    requires forall k | i <= k < j :: !Writes(suite, Before(suite, requests, k), requests[k], path)
    ensures path !in Before(suite, requests, j).secrets
  {
    hide Before, Step, Writes;
    if i < j {
      AbsenceStays(suite, requests, i, j - 1, path);
      OneStep(suite, requests, j - 1);
      StepKeepsAbsence(suite, Before(suite, requests, j - 1), requests[j - 1], path);
    }
  }

  lemma DeleteForgets(suite: Suite, s: State, request: Request, path: string)
    requires Deletes(suite, s, request, path)
    ensures path !in Step(suite, s, request).0.secrets
  {
    hide ValidatePath, Audited;
  }

  /** The call works on what is stored at the path. */
  predicate Shows(call: KvCall, path: string) {
    match call
    case KvRead(p, _) => p == path
    case KvVersions(p) => p == path
    case KvDelete(p) => p == path
    case _ => false
  }

  lemma ListedPaths(unlocked: bool, secrets: Secrets, email: string, path: string)
    requires path !in secrets
    ensures var listed := SecretsModel.List(unlocked, secrets, email);
            listed.Ok? ==> forall receipt | receipt in listed.value :: receipt.path != path
  {
    hide Owns;
    var paths := PathsOf(secrets, email);
    var sorted := Sorted(paths);
    forall i | 0 <= i < |sorted| ensures sorted[i] != path {
      SortedIsComplete(paths, sorted[i]);
    }
  }

  lemma OnlyKvListLists(suite: Suite, s: State, request: Request)
    requires Step(suite, s, request).1.Listing?
    ensures request.As? && request.use == Kv(KvList)
  {
    hide ValidatePath, Audited, SecretsModel.List, ValidKeyName, StrongPassphrase;
  }

  /** A path that holds nothing cannot be read or listed, and the next write to it is version 1. */
  lemma AbsentIsInvisible(suite: Suite, s: State, request: Request, path: string)
    requires path !in s.secrets
    ensures request.As? && request.use.Kv? && Shows(request.use.kv, path) ==> Step(suite, s, request).1.Failed?
    ensures Step(suite, s, request).1.Listing? ==>
      forall receipt | receipt in Step(suite, s, request).1.receipts :: receipt.path != path
    ensures Writes(suite, s, request, path) ==> Step(suite, s, request).1.receipt.version == 1
  {
    hide ValidatePath, Audited, SecretsModel.List, KeyStep, VaultStep;
    if Step(suite, s, request).1.Listing? {
      OnlyKvListLists(suite, s, request);
      var listed := SecretsModel.List(s.core.unlocked, s.secrets, request.email);
      assert listed.Ok? && Step(suite, s, request).1.receipts == listed.value;
      ListedPaths(s.core.unlocked, s.secrets, request.email, path);
    }
  }

  /** The first write after a deletion is version 1 again, and nothing of the old history can be read before it. */
  lemma DeletionStartsAfresh(suite: Suite, requests: seq<Request>, i: nat, j: nat, path: string)
    requires i < j < |requests| && Deletes(suite, Before(suite, requests, i), requests[i], path)
    requires forall k | i < k < j :: !Writes(suite, Before(suite, requests, k), requests[k], path)
    ensures Writes(suite, Before(suite, requests, j), requests[j], path) ==>
      Answer(suite, requests, j).receipt.version == 1
    ensures requests[j].As? && requests[j].use.Kv? && Shows(requests[j].use.kv, path) ==>
      Answer(suite, requests, j).Failed?
    ensures Answer(suite, requests, j).Listing? ==>
      forall receipt | receipt in Answer(suite, requests, j).receipts :: receipt.path != path
  {
    OneStep(suite, requests, i);
    hide Before, ValidatePath, Audited;
    DeleteForgets(suite, Before(suite, requests, i), requests[i], path);
    AbsenceStays(suite, requests, i + 1, j, path);
    hide Step, Shows;
    AbsentIsInvisible(suite, Before(suite, requests, j), requests[j], path);
  }
}
