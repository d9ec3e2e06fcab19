/** Login lockout over runs of the whole service. */
module LoginTheorems {
  import opened Basics
  import opened Crypto
  import opened LockoutModel
  import opened Login
  import opened System
  import Validation

  /** The clock that logins read never goes back. */
  ghost predicate ClockForward(requests: seq<Request>) {
    forall i, j | 0 <= i <= j < |requests| && requests[i].Login? && requests[j].Login? ::
      requests[i].now <= requests[j].now
  }

  /** The passwords checked for an email so far. */
  function ChecksOf(s: State, email: string): seq<Check> {
    if email in s.accounts then s.accounts[email].checks else []
  }

  /** The request tries a password on this account. */
  predicate Tries(request: Request, email: string) {
    request.Login? && request.email == email
  }

  /** Only an admitted login adds to an account's history. */
  lemma StepChecks(suite: Suite, s: State, request: Request, email: string)
    ensures var (s', response) := Step(suite, s, request);
            && (email in s.accounts ==>
                  email in s'.accounts && s'.accounts[email].password == s.accounts[email].password)
            && ChecksOf(s', email) ==
               if Tries(request, email) && email in s.accounts && response != Failed(AccountLocked) then
                 ChecksOf(s, email) + [Check(request.now, request.password == s.accounts[email].password)]
               else ChecksOf(s, email)
  {
    hide VaultStep, KvStep, KeyStep, Audited, Validation.StrongPassphrase, Locked;
  }

  /** How a login attempt on a registered account is answered. */
  lemma TryAnswer(suite: Suite, s: State, request: Request, email: string)
    requires Tries(request, email) && email in s.accounts
    ensures Step(suite, s, request).1 ==
      if Locked(ChecksOf(s, email), request.now) then Failed(AccountLocked)
      else if request.password == s.accounts[email].password then Text(request.token)
      else Failed(InvalidCredentials)
  {
    hide Locked;
  }

  /**
   At any moment of any run an attempt on a registered account is refused as locked exactly when the failures
   since the last success or expired lock are five and the fifth is less than 300 seconds old; otherwise the
   password decides. Every run after the first lock began when that lock had expired.
   */
  lemma RefusedExactlyDuringLock(suite: Suite, requests: seq<Request>, j: nat, email: string) returns (p: nat)
    requires j < |requests| && Tries(requests[j], email) && email in Before(suite, requests, j).accounts
    ensures IsRun(ChecksOf(Before(suite, requests, j), email), p)
    ensures var checks, request := ChecksOf(Before(suite, requests, j), email), requests[j];
            Answer(suite, requests, j) ==
              if |checks| == p + 5 && request.now < checks[p + 4].time + 300_000_000 then Failed(AccountLocked)
              else if request.password == Before(suite, requests, j).accounts[email].password then Text(request.token)
              else Failed(InvalidCredentials)
    ensures ClockForward(requests) ==> ExpiredBefore(ChecksOf(Before(suite, requests, j), email), p)
  {
    hide Before, Step, Locked, ChecksOf, ClockForward;
    var checks := ChecksOf(Before(suite, requests, j), email);
    TryAnswer(suite, Before(suite, requests, j), requests[j], email);
    CounterCountsTheRun(checks);
    p := |checks| - Counter(checks);
    LockedIsFullRun(checks, p, requests[j].now);
    if ClockForward(requests) {
      AlwaysLawful(suite, requests, j, email);
      LawfulRunExpired(checks, p);
    }
  }

  lemma NoChecksAtStart(suite: Suite, requests: seq<Request>, email: string)
    ensures ChecksOf(Before(suite, requests, 0), email) == []
  {
    assert requests[..0] == [];
  }

  /** The newest check of a history was made at the clock of an earlier login. */
  lemma {:induction false} NewestCheck(suite: Suite, requests: seq<Request>, i: nat, email: string) returns (k: nat)
    requires i <= |requests| && ChecksOf(Before(suite, requests, i), email) != []
    ensures k < i && requests[k].Login?
    ensures var checks := ChecksOf(Before(suite, requests, i), email);
            checks[|checks| - 1].time == requests[k].now
  {
    hide Before, Step, ChecksOf;
    NoChecksAtStart(suite, requests, email);
    k := i - 1;
    OneStep(suite, requests, k);
    StepChecks(suite, Before(suite, requests, k), requests[k], email);
    if ChecksOf(Before(suite, requests, k), email) == ChecksOf(Before(suite, requests, i), email) {
      k := NewestCheck(suite, requests, k, email);
    }
  }

  /** In every reachable state no password was ever checked during a lock. */
  lemma {:induction false} AlwaysLawful(suite: Suite, requests: seq<Request>, i: nat, email: string)
    requires i <= |requests| && ClockForward(requests)
    ensures Lawful(ChecksOf(Before(suite, requests, i), email))
  {
    hide Before, Step, Locked, ChecksOf;
    NoChecksAtStart(suite, requests, email);
    if i > 0 {
      var s, request := Before(suite, requests, i - 1), requests[i - 1];
      OneStep(suite, requests, i - 1);
      AlwaysLawful(suite, requests, i - 1, email);
      hide Lawful;
      StepChecks(suite, s, request, email);
      if ChecksOf(Before(suite, requests, i), email) != ChecksOf(s, email) {
        TryAnswer(suite, s, request, email);
        if ChecksOf(s, email) != [] {
          var k := NewestCheck(suite, requests, i - 1, email);
        }
        LawfulAppend(ChecksOf(s, email), Check(request.now, request.password == s.accounts[email].password));
      }
    }
  }

  /** 1 for an attempt on the account that is told its password is wrong. */
  ghost function Guess(suite: Suite, s: State, request: Request, email: string): nat {
    if Tries(request, email) && Step(suite, s, request).1 == Failed(InvalidCredentials) then 1 else 0
  }

  /** How many of the requests i..j tried a password on the account and were told that it is wrong. */
  ghost function WrongGuesses(suite: Suite, requests: seq<Request>, i: nat, j: nat, email: string): nat
    requires i <= j <= |requests|
  {
    if i == j then 0
    else
      WrongGuesses(suite, requests, i, j - 1, email) + Guess(suite, Before(suite, requests, j - 1), requests[j - 1],
        email)
  }

  /** In requests i..j, every attempt on the account falls into the window and none succeeds. */
  ghost predicate FruitlessWindow(suite: Suite, requests: seq<Request>, i: nat, j: nat, email: string, start: Time,
    span: Time)
    requires i <= j <= |requests|
  {
    forall k | i <= k < j && Tries(requests[k], email) ::
      start <= requests[k].now <= start + span && !Answer(suite, requests, k).Text?
  }

  /** The checks from position n on are failures inside the window. */
  ghost predicate FailuresWithin(checks: seq<Check>, n: nat, start: Time, span: Time) {
    forall k | n <= k < |checks| :: !checks[k].ok && start <= checks[k].time <= start + span
  }

  lemma FruitlessStep(suite: Suite, s: State, request: Request, email: string, n: nat, start: Time, span: Time)
    requires email in s.accounts && n <= |ChecksOf(s, email)| && FailuresWithin(ChecksOf(s, email), n, start, span)
    requires Tries(request, email) ==> start <= request.now <= start + span && !Step(suite, s, request).1.Text?
    ensures var s' := Step(suite, s, request).0;
            && email in s'.accounts && FailuresWithin(ChecksOf(s', email), n, start, span)
            && |ChecksOf(s', email)| == |ChecksOf(s, email)| + Guess(suite, s, request, email)
  {
    hide Step, Locked;
    StepChecks(suite, s, request, email);
    if Tries(request, email) {
      TryAnswer(suite, s, request, email);
    }
  }

  lemma {:induction false} WrongGuessesAreChecks(suite: Suite, requests: seq<Request>, i: nat, j: nat, email: string,
    start: Time, span: Time)
    requires i <= j <= |requests| && email in Before(suite, requests, i).accounts
    requires FruitlessWindow(suite, requests, i, j, email, start, span)
    ensures email in Before(suite, requests, j).accounts
    ensures var before, after := ChecksOf(Before(suite, requests, i), email),
      ChecksOf(Before(suite, requests, j), email);
            |after| == |before| + WrongGuesses(suite, requests, i, j, email)
              && FailuresWithin(after, |before|, start, span)
  {
    hide Before, Step, Locked, ChecksOf, Guess;
    if i < j {
      var s, request := Before(suite, requests, j - 1), requests[j - 1];
      WrongGuessesAreChecks(suite, requests, i, j - 1, email, start, span);
      OneStep(suite, requests, j - 1);
      hide FailuresWithin;
      assert WrongGuesses(suite, requests, i, j, email) ==
        WrongGuesses(suite, requests, i, j - 1, email) + Guess(suite, s, request, email);
      assert Tries(request, email) ==> start <= request.now <= start + span && !Answer(suite, requests, j - 1).Text?;
      FruitlessStep(suite, s, request, email, |ChecksOf(Before(suite, requests, i), email)|, start, span);
    }
  }

  /**
   From any reachable state, in any closed time window of length `span` without a successful login, at most
   5 * (span / 300s + 1) wrong passwords are actually checked for an account, whatever else is requested.
   */
  lemma WrongGuessesAreBounded(suite: Suite, requests: seq<Request>, i: nat, j: nat, email: string, start: Time,
    span: Time)
    requires i <= j <= |requests| && email in Before(suite, requests, i).accounts && ClockForward(requests) && span >= 0
    requires FruitlessWindow(suite, requests, i, j, email, start, span)
    ensures WrongGuesses(suite, requests, i, j, email) <= ATTEMPTS * (span / LOCK_TIME + 1)
  {
    WrongGuessesAreChecks(suite, requests, i, j, email, start, span);
    AlwaysLawful(suite, requests, j, email);
    hide Before, Lawful;
    var checks := ChecksOf(Before(suite, requests, j), email);
    var n := |ChecksOf(Before(suite, requests, i), email)|;
    if n < |checks| {
      GuessBound(checks, n, |checks|, span);
    }
  }
}
