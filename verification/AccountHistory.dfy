/** Who is registered with which password, and how logins are answered, told from earlier requests and answers alone. */
module AccountHistory {
  import opened Basics
  import opened Validation
  import opened Crypto
  import opened LockoutModel
  import opened System
  import opened LoginTheorems

  /** Request i registered this address. */
  ghost predicate Registers(suite: Suite, requests: seq<Request>, i: nat, email: string)
    requires i < |requests|
  {
    requests[i].Register? && requests[i].email == email && Answer(suite, requests, i).Text?
  }

  ghost predicate Registered(suite: Suite, requests: seq<Request>, j: nat, email: string)
    requires j <= |requests|
  {
    exists i :: 0 <= i < j && Registers(suite, requests, i, email)
  }

  lemma RegisterStep(suite: Suite, requests: seq<Request>, i: nat, email: string)
    requires i < |requests|
    ensures var s, s' := Before(suite, requests, i), Before(suite, requests, i + 1);
            && (email in s'.accounts <==> email in s.accounts || Registers(suite, requests, i, email))
            && (Registers(suite, requests, i, email) ==>
                  email !in s.accounts && s'.accounts[email].password == requests[i].password)
            && (email in s.accounts ==> s'.accounts[email].password == s.accounts[email].password)
  {
    OneStep(suite, requests, i);
    hide Before, VaultStep, UseStep, Audited, LockoutModel.Register, LockoutModel.Login;
    var s, request := Before(suite, requests, i), requests[i];
    UseKeepsAccounts(suite, s, request);
    AccountStep(s.accounts, request, email);
  }

  lemma UseKeepsAccounts(suite: Suite, s: State, request: Request)
    ensures request.As? ==> UseStep(suite, s, request.email, request.use, request.now).0.accounts == s.accounts
  {
    hide KvStep, KeyStep;
  }

  lemma AccountStep(accounts: Accounts, request: Request, email: string)
    ensures request.Register? ==>
      var (accounts', r) := LockoutModel.Register(accounts, request.email, request.password, request.confirmation);
      && (email in accounts' <==> email in accounts || (request.email == email && r.Ok?))
      && (request.email == email && r.Ok? ==> email !in accounts && accounts'[email].password == request.password)
      && (email in accounts ==> accounts'[email].password == accounts[email].password)
    ensures request.Login? ==>
      var accounts' := LockoutModel.Login(accounts, request.email, request.password, request.now, request.token).0;
      && (email in accounts' <==> email in accounts)
      && (email in accounts ==> accounts'[email].password == accounts[email].password)
  {
    hide StrongPassphrase, Locked;
  }

  /** An account exists exactly for the addresses registered before, with the password of that one registration. */
  lemma {:induction false} RegisteredExactly(suite: Suite, requests: seq<Request>, j: nat, email: string)
    requires j <= |requests|
    ensures email in Before(suite, requests, j).accounts <==> Registered(suite, requests, j, email)
    ensures forall i | 0 <= i < j && Registers(suite, requests, i, email) ::
      Before(suite, requests, j).accounts[email].password == requests[i].password
  {
    hide Before, Registers;
    if j == 0 {
      AtStart(suite, requests);
    } else {
      RegisteredExactly(suite, requests, j - 1, email);
      RegisterStep(suite, requests, j - 1, email);
    }
  }

  /** A registration succeeds for a confirmed strong password and a free address; the refusals come in this order. */
  lemma RegisterAnswered(suite: Suite, requests: seq<Request>, j: nat)
    requires j < |requests| && requests[j].Register?
    ensures Answer(suite, requests, j) ==
      if requests[j].password != requests[j].confirmation then Failed(ValidationError)
      else if !StrongPassphrase(requests[j].password) then Failed(WeakPassphrase)
      else if Registered(suite, requests, j, requests[j].email) then Failed(EmailAlreadyExists)
      else Text(requests[j].email)
  {
    RegisteredExactly(suite, requests, j, requests[j].email);
    hide Before, StrongPassphrase, Registered;
  }

  /** The attempts on a registered account whose password was checked, with their outcome. */
  ghost function Attempts(suite: Suite, requests: seq<Request>, j: nat, email: string): seq<Check>
    requires j <= |requests|
  {
    if j == 0 then []
    else Attempts(suite, requests, j - 1, email) + Attempt(suite, requests, j - 1, email)
  }

  ghost function Attempt(suite: Suite, requests: seq<Request>, i: nat, email: string): seq<Check>
    requires i < |requests|
  {
    if Tries(requests[i], email) && Registered(suite, requests, i, email)
      && Answer(suite, requests, i) != Failed(AccountLocked)
    then [Check(requests[i].now, Answer(suite, requests, i).Text?)]
    else []
  }

  lemma AttemptStep(suite: Suite, requests: seq<Request>, i: nat, email: string)
    requires i < |requests|
    ensures ChecksOf(Before(suite, requests, i + 1), email) ==
      ChecksOf(Before(suite, requests, i), email) + Attempt(suite, requests, i, email)
  {
    OneStep(suite, requests, i);
    RegisteredExactly(suite, requests, i, email);
    hide Before, Step, Registered, Locked;
    var s, request := Before(suite, requests, i), requests[i];
    StepChecks(suite, s, request, email);
    if Tries(request, email) && email in s.accounts {
      TryAnswer(suite, s, request, email);
    }
  }

  lemma {:induction false} AttemptsExactly(suite: Suite, requests: seq<Request>, j: nat, email: string)
    requires j <= |requests|
    ensures ChecksOf(Before(suite, requests, j), email) == Attempts(suite, requests, j, email)
  {
    hide Before, Attempt, ChecksOf;
    if j == 0 {
      NoChecksAtStart(suite, requests, email);
    } else {
      AttemptsExactly(suite, requests, j - 1, email);
      AttemptStep(suite, requests, j - 1, email);
    }
  }

  /**
   How a login is answered: unknown addresses have invalid credentials; a registered one is refused as locked
   exactly when the checked failures since the last success or expired lock are five and the fifth is less than
   300 seconds old; otherwise it succeeds exactly with the password that was registered.
   */
  lemma LoginAnswered(suite: Suite, requests: seq<Request>, j: nat) returns (p: nat)
    requires j < |requests| && requests[j].Login?
    ensures var email, request := requests[j].email, requests[j];
            var checks := Attempts(suite, requests, j, email);
            && (!Registered(suite, requests, j, email) ==> Answer(suite, requests, j) == Failed(InvalidCredentials))
            && (Registered(suite, requests, j, email) ==> IsRun(checks, p))
            && forall i | 0 <= i < j && Registers(suite, requests, i, email) ::
                 Answer(suite, requests, j) ==
                   if |checks| == p + 5 && request.now < checks[p + 4].time + 300_000_000 then Failed(AccountLocked)
                   else if request.password == requests[i].password then Text(request.token)
                   else Failed(InvalidCredentials)
  {
    var email := requests[j].email;
    p := 0;
    RegisteredExactly(suite, requests, j, email);
    if email in Before(suite, requests, j).accounts {
      AttemptsExactly(suite, requests, j, email);
      p := RefusedExactlyDuringLock(suite, requests, j, email);
    }
    hide Before, Locked, IsRun, Attempts, Registers;
  }
}
