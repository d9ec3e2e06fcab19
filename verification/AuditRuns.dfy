/** The audit log over runs of the whole service: always valid, append-only, complete, and fixed by its head. */
module AuditRuns {
  import opened Basics
  import opened Crypto
  import opened AuditModel
  import opened AuditTheorems
  import opened System
  import Envelope

  /** Well linked, and numbered 1, 2, ... */
  ghost predicate Orderly(suite: Suite, rows: seq<Row>) {
    Chain(suite, rows) && forall i | 0 <= i < |rows| :: rows[i].id == i + 1
  }

  lemma AuditedStaysOrderly(suite: Suite, rows: seq<Row>, email: string, clientIp: string, use: Call,
    response: Response)
    requires Orderly(suite, rows)
    ensures var rows' := Audited(suite, rows, email, clientIp, use, response);
            Orderly(suite, rows') && rows <= rows'
  {
    hide Chain;
    if response == Failed(PermissionDenied) && HookOf(use).Some? {
      var hook := HookOf(use).value;
      var row := Row(NextId(rows), email, hook.action, hook.resourceType, hook.identifier, "DENIED", clientIp, "", "");
      ExtendKeepsChain(suite, rows, row);
    }
  }

  lemma StepStaysOrderly(suite: Suite, s: State, request: Request)
    requires Orderly(suite, s.audit)
    ensures var s' := Step(suite, s, request).0;
            Orderly(suite, s'.audit) && s.audit <= s'.audit
  {
    hide Orderly, VaultStep, KvStep, KeyStep, Audited;
    if request.As? {
      AuditedStaysOrderly(suite, s.audit, request.email, request.clientIp, request.use, Step(suite, s, request).1);
    }
  }

  lemma {:induction false} AlwaysOrderly(suite: Suite, requests: seq<Request>, i: nat)
    requires i <= |requests|
    ensures Orderly(suite, Before(suite, requests, i).audit)
  {
    if i == 0 {
      assert requests[..0] == [];
    } else {
      AlwaysOrderly(suite, requests, i - 1);
      OneStep(suite, requests, i - 1);
      hide Orderly, Before, Step;
      StepStaysOrderly(suite, Before(suite, requests, i - 1), requests[i - 1]);
    }
  }

  /** Whenever anybody asks, the checker answers that the log is intact. */
  lemma AuditAlwaysVerifies(suite: Suite, requests: seq<Request>, j: nat)
    requires j < |requests| && requests[j].As? && requests[j].use == VerifyAudit
    ensures Answer(suite, requests, j) == Verdict(Intact)
  {
    AlwaysOrderly(suite, requests, j);
    hide Before, Chain;
    IntactIffChain(suite, Before(suite, requests, j).audit);
  }

  lemma StepKeepsChain(suite: Suite, s: State, request: Request)
    requires Chain(suite, s.audit)
    ensures Chain(suite, Step(suite, s, request).0.audit)
  {
    hide VaultStep, KvStep, KeyStep, Chain;
    if request.As? && HookOf(request.use).Some? {
      var hook := HookOf(request.use).value;
      var row := Row(NextId(s.audit), request.email, hook.action, hook.resourceType, hook.identifier, "DENIED",
                     request.clientIp, "", "");
      ExtendKeepsChain(suite, s.audit, row);
    }
  }

  lemma {:induction false} RunKeepsChain(suite: Suite, s: State, requests: seq<Request>)
    requires Chain(suite, s.audit)
    ensures Chain(suite, Run(suite, s, requests).audit)
  {
    hide Step, Chain;
    if requests != [] {
      var earlier := requests[..|requests| - 1];
      RunKeepsChain(suite, s, earlier);
      StepKeepsChain(suite, Run(suite, s, earlier), requests[|requests| - 1]);
    }
  }

  /** A log backfilled from any legacy rows keeps verifying, whatever is requested afterwards. */
  lemma BackfilledLogVerifies(suite: Suite, s: State, legacy: seq<Row>, requests: seq<Request>)
    requires s.audit == Replay(suite, legacy)
    ensures Check(suite, Run(suite, s, requests).audit) == Intact
  {
    hide Run, Chain;
    ReplayIsChain(suite, legacy);
    RunKeepsChain(suite, s, requests);
    IntactIffChain(suite, Run(suite, s, requests).audit);
  }

  /** What a row tells, apart from its id and its place in the chain. */
  datatype Event = Event(email: string, action: string, resourceType: string, identifier: string, result: string,
    clientIp: string)

  function EventOf(row: Row): Event {
    Event(row.email, row.action, row.resourceType, row.identifier, row.result, row.clientIp)
  }

  function EventsOf(rows: seq<Row>): (events: seq<Event>)
    ensures |events| == |rows|
  {
    seq(|rows|, i requires 0 <= i < |rows| => EventOf(rows[i]))
  }

  /** The event a request leaves behind: one for a denied call that names a resource. */
  function EventsIn(request: Request, response: Response): seq<Event> {
    if request.As? && response == Failed(PermissionDenied) && HookOf(request.use).Some? then
      var hook := HookOf(request.use).value;
      [Event(request.email, hook.action, hook.resourceType, hook.identifier, "DENIED", request.clientIp)]
    else []
  }

  /** The denied calls among the first n requests, in order. */
  ghost function DeniedCalls(suite: Suite, requests: seq<Request>, n: nat): seq<Event>
    requires n <= |requests|
  {
    if n == 0 then []
    else DeniedCalls(suite, requests, n - 1) + EventsIn(requests[n - 1], Answer(suite, requests, n - 1))
  }

  lemma StepRecords(suite: Suite, s: State, request: Request)
    ensures EventsOf(Step(suite, s, request).0.audit) ==
      EventsOf(s.audit) + EventsIn(request, Step(suite, s, request).1)
  {
    hide VaultStep, KvStep, KeyStep, Line, HookOf;
  }

  /** The log tells exactly the denied calls of the run, each once, in order. */
  lemma {:induction false} LogIsComplete(suite: Suite, requests: seq<Request>, n: nat)
    requires n <= |requests|
    ensures EventsOf(Before(suite, requests, n).audit) == DeniedCalls(suite, requests, n)
  {
    if n == 0 {
      assert requests[..0] == [];
    } else {
      LogIsComplete(suite, requests, n - 1);
      OneStep(suite, requests, n - 1);
      hide Before, Step;
      StepRecords(suite, Before(suite, requests, n - 1), requests[n - 1]);
    }
  }

  /** No step removes or rewrites a row. */
  lemma {:induction false} LogOnlyGrows(suite: Suite, requests: seq<Request>, i: nat, j: nat)
    requires i <= j <= |requests|
    ensures Before(suite, requests, i).audit <= Before(suite, requests, j).audit
  {
    hide Before, Step, Orderly;
    if i < j {
      LogOnlyGrows(suite, requests, i, j - 1);
      AlwaysOrderly(suite, requests, j - 1);
      OneStep(suite, requests, j - 1);
      StepStaysOrderly(suite, Before(suite, requests, j - 1), requests[j - 1]);
    }
  }

  /** No address in the run has the separator of the hashed line in its domain. */
  ghost predicate PlainAddresses(requests: seq<Request>) {
    forall i | 0 <= i < |requests| && requests[i].As? :: PlainDomain(requests[i].email)
  }

  lemma KvHooksArePlain(call: KvCall)
    ensures HookOf(Kv(call)).Some? ==> '|' !in HookOf(Kv(call)).value.action
  {
  }

  lemma KeyHooksArePlain(call: KeyCall)
    ensures HookOf(Keys(call)).Some? ==> '|' !in HookOf(Keys(call)).value.action
  {
    hide Envelope.AuditName;
  }

  lemma StepStaysPlain(suite: Suite, s: State, request: Request)
    requires AllPipeFree(s.audit) && (request.As? ==> PlainDomain(request.email))
    ensures AllPipeFree(Step(suite, s, request).0.audit)
  {
    hide VaultStep, KvStep, KeyStep, Line, HookOf;
    if request.As? {
      match request.use
      case Kv(call) => KvHooksArePlain(call);
      case Keys(call) => KeyHooksArePlain(call);
      case VerifyAudit =>
    }
  }

  lemma {:induction false} RowsArePlain(suite: Suite, requests: seq<Request>, n: nat)
    requires n <= |requests| && PlainAddresses(requests)
    ensures AllPipeFree(Before(suite, requests, n).audit)
  {
    if n == 0 {
      assert requests[..0] == [];
    } else {
      RowsArePlain(suite, requests, n - 1);
      OneStep(suite, requests, n - 1);
      hide Before, Step, AllPipeFree;
      StepStaysPlain(suite, Before(suite, requests, n - 1), requests[n - 1]);
    }
  }

  /** The resource type that goes with an action of the handlers. */
  function TypeOf(action: string): string {
    if action in ["WRITE", "READ", "LIST_VERSIONS", "DELETE"] then "KV_SECRET" else "TRANSIT_KEY"
  }

  lemma KvHookType(call: KvCall)
    ensures HookOf(Kv(call)).Some? ==>
      HookOf(Kv(call)).value.resourceType == TypeOf(HookOf(Kv(call)).value.action)
  {
  }

  lemma KeyHookType(call: KeyCall)
    ensures HookOf(Keys(call)).Some? ==>
      HookOf(Keys(call)).value.resourceType == TypeOf(HookOf(Keys(call)).value.action)
  {
    hide Envelope.AuditName;
  }

  ghost predicate Typed(events: seq<Event>) {
    forall i | 0 <= i < |events| :: events[i].resourceType == TypeOf(events[i].action)
  }

  lemma EventsAreTyped(request: Request, response: Response)
    ensures Typed(EventsIn(request, response))
  {
    hide HookOf, TypeOf;
    if request.As? {
      match request.use
      case Kv(call) => KvHookType(call);
      case Keys(call) => KeyHookType(call);
      case VerifyAudit => NoHookForVerify();
    }
  }

  lemma NoHookForVerify()
    ensures HookOf(VerifyAudit).None?
  {
  }

  /** In a run the action determines the resource type, which the hash does not cover. */
  lemma {:induction false} DeniedCallsAreTyped(suite: Suite, requests: seq<Request>, n: nat)
    requires n <= |requests|
    ensures Typed(DeniedCalls(suite, requests, n))
  {
    hide Before, Step, Answer, EventsIn, TypeOf;
    if n > 0 {
      DeniedCallsAreTyped(suite, requests, n - 1);
      EventsAreTyped(requests[n - 1], Answer(suite, requests, n - 1));
    }
  }

  /**
   Two runs whose logs end in the same hash denied the same calls: same length and, row by row, the same
   user, action, resource and result; only the client address may differ. Identifiers and local parts may
   contain separators.
   */
  lemma HeadFixesHistory(suite: Suite, p: seq<Request>, m: nat, q: seq<Request>, n: nat)
    requires m <= |p| && n <= |q| && PlainAddresses(p) && PlainAddresses(q)
    requires Head(Before(suite, p, m).audit) == Head(Before(suite, q, n).audit)
    requires NoCollision(suite, Before(suite, p, m).audit, Before(suite, q, n).audit)
    ensures var a, b := DeniedCalls(suite, p, m), DeniedCalls(suite, q, n);
            |a| == |b| && forall i | 0 <= i < |a| :: a[i] == b[i].(clientIp := a[i].clientIp)
  {
    AlwaysOrderly(suite, p, m);
    AlwaysOrderly(suite, q, n);
    RowsArePlain(suite, p, m);
    RowsArePlain(suite, q, n);
    LogIsComplete(suite, p, m);
    LogIsComplete(suite, q, n);
    DeniedCallsAreTyped(suite, p, m);
    DeniedCallsAreTyped(suite, q, n);
    hide Before, DeniedCalls, Chain, AllPipeFree, NoCollision, TypeOf;
    HeadFixesLog(suite, Before(suite, p, m).audit, Before(suite, q, n).audit);
  }
}
