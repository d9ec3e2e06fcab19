/** Which calls are denied, and the rows that denials leave in the audit log, told without the handlers' tables. */
module Denials {
  import opened Basics
  import opened Base64
  import opened Validation
  import opened Contexts
  import opened Crypto
  import opened AuditModel
  import opened AuditRuns
  import opened System
  import opened LockHistory
  import opened KeyHistory
  import Envelope
  import Formats
  import opened KeyAnswers
  import SecretHistory
  import opened SecretsModel
  import Text

  /** The log got one more row, numbered next, with these fields, and linked to the last one. */
  ghost predicate Logged(suite: Suite, before: seq<Row>, after: seq<Row>, event: Event) {
    && |after| == |before| + 1 && before <= after && EventOf(after[|before|]) == event
    && var row := after[|before|];
       var previous := if before == [] then "GENESIS" else before[|before| - 1].hash;
       && row.id == |after| && row.previousHash == previous
       && row.hash == B64e(suite.sha256(
            Text.Dec(row.id) + "|" + previous + "|" + event.email + "|" + event.action + "|"
            + event.identifier + "|" + event.result))
  }

  lemma AppendLogs(suite: Suite, rows: seq<Row>, event: Event)
    requires Orderly(suite, rows)
    ensures Logged(suite, rows, Append(suite, rows, event.email, event.action, event.resourceType, event.identifier,
                                       event.result, event.clientIp), event)
  {
    hide Chain;
    var row := Row(NextId(rows), event.email, event.action, event.resourceType, event.identifier, event.result,
                   event.clientIp, "", "");
    Formats.LineText(row, Head(rows));
    hide Line;
  }

  /** The event of a denied KV call. */
  function KvEvent(email: string, clientIp: string, call: KvCall): Event
    requires !call.KvList?
  {
    match call
    case KvWrite(path, _, _) => Event(email, "WRITE", "KV_SECRET", path, "DENIED", clientIp)
    case KvRead(path, _) => Event(email, "READ", "KV_SECRET", path, "DENIED", clientIp)
    case KvVersions(path) => Event(email, "LIST_VERSIONS", "KV_SECRET", path, "DENIED", clientIp)
    case KvDelete(path) => Event(email, "DELETE", "KV_SECRET", path, "DENIED", clientIp)
  }

  predicate OnPath(call: KvCall, path: string) {
    match call
    case KvWrite(p, _, _) => p == path
    case KvRead(p, _) => p == path
    case KvVersions(p) => p == path
    case KvDelete(p) => p == path
    case KvList => false
  }

  lemma KvDenialStep(suite: Suite, s: State, request: Request)
    requires request.As? && request.use.Kv? && !request.use.kv.KvList? && Orderly(suite, s.audit)
    requires Step(suite, s, request).1 == Failed(PermissionDenied)
    ensures Logged(suite, s.audit, Step(suite, s, request).0.audit,
      KvEvent(request.email, request.clientIp, request.use.kv))
  {
    AppendLogs(suite, s.audit, KvEvent(request.email, request.clientIp, request.use.kv));
    hide KvStep, Orderly, Append, Logged;
  }

  lemma KvFailureKeeps(unlocked: bool, secrets: Secrets, email: string, call: KvCall, now: Time)
    requires KvStep(unlocked, secrets, email, call, now).1.Failed?
    ensures KvStep(unlocked, secrets, email, call, now).0 == secrets
  {
    hide ValidatePath;
  }

  /** The owner may use the path, and nobody else: a denial leaves its row and changes nothing else. */
  lemma ForeignPathIsDenied(suite: Suite, requests: seq<Request>, j: nat, owner: string, path: string)
    requires j < |requests| && requests[j].As? && requests[j].use.Kv? && OnPath(requests[j].use.kv, path)
    requires ValidEmail(owner) && ValidEmail(requests[j].email) && requests[j].email != owner
    requires !SecretHistory.Malformed(path) && SecretHistory.Within(path, owner)
    ensures Answer(suite, requests, j) == Failed(PermissionDenied)
    ensures var s, s' := Before(suite, requests, j), Before(suite, requests, j + 1);
            && Logged(suite, s.audit, s'.audit, KvEvent(requests[j].email, requests[j].clientIp, requests[j].use.kv))
            && s' == s.(audit := s'.audit)
  {
    var s, request := Before(suite, requests, j), requests[j];
    OneStep(suite, requests, j);
    AlwaysOrderly(suite, requests, j);
    ForeignPath(path, owner, request.email);
    DeniedPath(suite, s, request, path);
    KvDenialStep(suite, s, request);
    KvFailureKeeps(s.core.unlocked, s.secrets, request.email, request.use.kv, request.now);
    hide Before, KvStep, Audited, Logged, Orderly;
  }

  lemma ForeignPath(path: string, owner: string, email: string)
    requires ValidEmail(owner) && ValidEmail(email) && email != owner
    requires !SecretHistory.Malformed(path) && SecretHistory.Within(path, owner)
    ensures ValidatePath(path, email) == Err(PermissionDenied)
  {
    SecretHistory.PathAnswered(path, email);
    SecretHistory.PathAnswered(path, owner);
    hide ValidEmail, SecretHistory.Malformed, SecretHistory.Within;
    if ValidatePath(path, email).Ok? {
      OwnerIsUnique(path, owner, email);
    }
  }

  lemma DeniedPath(suite: Suite, s: State, request: Request, path: string)
    requires request.As? && request.use.Kv? && OnPath(request.use.kv, path)
    requires ValidatePath(path, request.email) == Err(PermissionDenied)
    ensures Step(suite, s, request).1 == Failed(PermissionDenied)
  {
    hide ValidatePath, Audited;
  }

  /** The event of a denied transit call; `name` is what the call says the key is called. */
  function KeyEvent(email: string, clientIp: string, call: KeyCall, name: string): Event {
    match call
    case GetKey(_) => Event(email, "GET", "TRANSIT_KEY", name, "DENIED", clientIp)
    case Rotate(_, _, _) => Event(email, "ROTATE", "TRANSIT_KEY", name, "DENIED", clientIp)
    case Revoke(_) => Event(email, "REVOKE", "TRANSIT_KEY", name, "DENIED", clientIp)
    case Encrypt(_, _, _) => Event(email, "ENCRYPT", "TRANSIT_KEY", name, "DENIED", clientIp)
    case Decrypt(_) => Event(email, "DECRYPT", "TRANSIT_KEY", name, "DENIED", clientIp)
    case Sign(_, _, _) => Event(email, "SIGN", "TRANSIT_KEY", name, "DENIED", clientIp)
    case Verify(_, _, _, _, _) => Event(email, "VERIFY", "TRANSIT_KEY", name, "DENIED", clientIp)
    case _ => Event(email, "", "", name, "", clientIp)
  }

  lemma KeyDenialStep(suite: Suite, s: State, request: Request, name: string)
    requires request.As? && request.use.Keys? && OnKey(request.use.key, name) && Orderly(suite, s.audit)
    requires Step(suite, s, request).1 == Failed(PermissionDenied)
    ensures Logged(suite, s.audit, Step(suite, s, request).0.audit,
                   KeyEvent(request.email, request.clientIp, request.use.key, name))
  {
    var event := KeyEvent(request.email, request.clientIp, request.use.key, name);
    AppendLogs(suite, s.audit, event);
    KeyHook(request.email, request.clientIp, request.use.key, name);
    hide KeyStep, Orderly, Append, Logged, HookOf, KeyEvent, OnKey;
  }

  lemma KeyHook(email: string, clientIp: string, call: KeyCall, name: string)
    requires OnKey(call, name)
    ensures var event := KeyEvent(email, clientIp, call, name);
            && HookOf(Keys(call)) == Some(Hook(event.action, event.resourceType, name))
            && event == Event(email, event.action, event.resourceType, name, "DENIED", clientIp)
  {
    if call.Decrypt? {
      Envelope.AuditNameIsLookedUp(call.envelope);
    }
    hide Envelope.Parse, Envelope.AuditName;
  }

  lemma MissingKeyStep(suite: Suite, s: State, request: Request, name: string)
    requires request.As? && request.use.Keys? && OnKey(request.use.key, name)
    requires s.core.unlocked && KeyId(request.email, name) !in s.ring
    ensures Step(suite, s, request).1 == Failed(PermissionDenied)
    ensures Step(suite, s, request).0 == s.(audit := Step(suite, s, request).0.audit)
  {
    hide Envelope.Parse, Audited;
  }

  /**
   A key that the caller never created, whether somebody else has one of that name or not, is denied to every
   call on it, with a row in the log and no other change.
   */
  lemma MissingKeyIsDenied(suite: Suite, requests: seq<Request>, j: nat, name: string)
    requires j < |requests| && requests[j].As? && requests[j].use.Keys? && OnKey(requests[j].use.key, name)
    requires IsOpen(suite, requests, j) && Creation(suite, requests, j, KeyId(requests[j].email, name)) == None
    ensures Answer(suite, requests, j) == Failed(PermissionDenied)
    ensures var s, s' := Before(suite, requests, j), Before(suite, requests, j + 1);
            && Logged(suite, s.audit, s'.audit,
                      KeyEvent(requests[j].email, requests[j].clientIp, requests[j].use.key, name))
            && s' == s.(audit := s'.audit)
  {
    var s, request := Before(suite, requests, j), requests[j];
    OneStep(suite, requests, j);
    AlwaysOrderly(suite, requests, j);
    OpenExactly(suite, requests, j);
    KeysExactly(suite, requests, j, KeyId(request.email, name));
    hide Before, Step, Logged, Orderly, IsOpen, Creation, OnKey;
    MissingKeyStep(suite, s, request, name);
    KeyDenialStep(suite, s, request, name);
  }

  /** Only denials are logged. */
  lemma OnlyDenialsAreLogged(suite: Suite, requests: seq<Request>, j: nat)
    requires j < |requests| && Answer(suite, requests, j) != Failed(PermissionDenied)
    ensures Before(suite, requests, j + 1).audit == Before(suite, requests, j).audit
  {
    OneStep(suite, requests, j);
    hide Before, KvStep, KeyStep, VaultStep;
  }
}
