/**
 What login lockout promises, stated over the history of checked passwords instead of a counter and a
 deadline.
 */
module LockoutModel {
  import opened Basics
  import opened Validation

  const ATTEMPTS := 5
  const LOCK_TIME: Time := 300_000_000

  /** One password that was really compared with the stored one. */
  datatype Check = Check(time: Time, ok: bool)

  datatype Account = Account(password: string, checks: seq<Check>)

  type Accounts = map<string, Account>

  /** The checked failures since the last success. */
  function Failures(checks: seq<Check>): (n: nat)
    ensures n <= |checks|
  {
    if checks == [] || checks[|checks| - 1].ok then 0 else 1 + Failures(checks[..|checks| - 1])
  }

  /** The latest failure completed a group of five. */
  predicate Exhausted(checks: seq<Check>) {
    Failures(checks) > 0 && Failures(checks) % ATTEMPTS == 0
  }

  /** An attempt is refused while the fifth failure of a group is less than 300 seconds old. */
  predicate Locked(checks: seq<Check>, now: Time) {
    Exhausted(checks) && now < checks[|checks| - 1].time + LOCK_TIME
  }

  /**
   The checks from position p on are the present run of failures: it begins at the start, after a success, or
   after a lock, that is after an earlier run that reached five; a full run stays the present one until the
   next check.
   */
  ghost predicate IsRun(checks: seq<Check>, p: nat)
    decreases p
  {
    && p <= |checks| <= p + ATTEMPTS && (forall n | p <= n < |checks| :: !checks[n].ok)
    && (p == 0 || checks[p - 1].ok || (p < |checks| && p >= ATTEMPTS && IsRun(checks[..p], p - ATTEMPTS)))
  }

  function Register(accounts: Accounts, email: string, password: string, confirmation: string)
    : (Accounts, Result<string>)
  {
    if password != confirmation then (accounts, Err(ValidationError))
    else if !StrongPassphrase(password) then (accounts, Err(WeakPassphrase))
    else if email in accounts then (accounts, Err(EmailAlreadyExists))
    else (accounts[email := Account(password, [])], Ok(email))
  }

  function Login(accounts: Accounts, email: string, password: string, now: Time, token: string)
    : (Accounts, Result<string>)
  {
    if email !in accounts then (accounts, Err(InvalidCredentials))
    else
      var account := accounts[email];
      if Locked(account.checks, now) then (accounts, Err(AccountLocked))
      else
        var ok := password == account.password;
        (accounts[email := account.(checks := account.checks + [Check(now, ok)])],
         if ok then Ok(token) else Err(InvalidCredentials))
  }

  /** A history that login can produce: no password was checked during a lock, and the clock never went back. */
  ghost predicate Lawful(checks: seq<Check>) {
    && (forall i | 0 <= i < |checks| :: !Locked(checks[..i], checks[i].time))
    && (forall i, j | 0 <= i <= j < |checks| :: checks[i].time <= checks[j].time)
  }

  lemma LawfulAppend(checks: seq<Check>, c: Check)
    requires Lawful(checks) && !Locked(checks, c.time)
    requires checks == [] || checks[|checks| - 1].time <= c.time
    ensures Lawful(checks + [c])
  {
    var checks' := checks + [c];
    assert checks'[..|checks|] == checks;
    assert forall i | 0 <= i < |checks| :: checks'[..i] == checks[..i];
  }

  lemma {:induction false} FailuresAddUp(checks: seq<Check>, i: nat, k: nat)
    requires i <= k <= |checks| && forall n | i <= n < k :: !checks[n].ok
    ensures Failures(checks[..k]) == Failures(checks[..i]) + (k - i)
  {
    if i < k {
      FailuresAddUp(checks, i, k - 1);
      assert checks[..k][..k - 1] == checks[..k - 1];
    }
  }

  /** Somewhere in five consecutive failures a group is completed. */
  function NextGroup(f: nat): (d: nat)
    ensures 1 <= d <= 5 && (f + d) % ATTEMPTS == 0
  {
    5 - f % 5
  }

  lemma ShorterSpan(span: Time)
    ensures (span - LOCK_TIME) / LOCK_TIME == span / LOCK_TIME - 1
  {
  }

  /** A completed group of five keeps the next check away for the lock time. */
  lemma GroupTakesLockTime(checks: seq<Check>, i: nat, k: nat)
    requires Lawful(checks) && i < k < |checks| && k == i + NextGroup(Failures(checks[..i]))
    requires forall n | i <= n < k :: !checks[n].ok
    ensures checks[k].time >= checks[i].time + LOCK_TIME
  {
    FailuresAddUp(checks, i, k);
    assert Exhausted(checks[..k]) && !Locked(checks[..k], checks[k].time);
    assert checks[i].time <= checks[k - 1].time;
  }

  /** In any stretch of checked failures spanning T, at most 5 * (T / 300s + 1) passwords were checked. */
  lemma {:induction false} GuessBound(checks: seq<Check>, i: nat, j: nat, span: Time)
    requires Lawful(checks) && i < j <= |checks|
    requires forall n | i <= n < j :: !checks[n].ok
    requires checks[j - 1].time - checks[i].time <= span
    ensures j - i <= ATTEMPTS * (span / LOCK_TIME + 1)
    decreases j - i
  {
    var k := i + NextGroup(Failures(checks[..i]));
    if k < j {
      GroupTakesLockTime(checks, i, k);
      GuessBound(checks, k, j, span - LOCK_TIME);
      ShorterSpan(span);
    } else {
      assert checks[i].time <= checks[j - 1].time;
    }
  }
}
