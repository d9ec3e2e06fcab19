/** app/auth/service.py: the failure counter and the deadline. */
module Login {
  import opened Basics
  import opened Validation
  import opened Database
  import opened LockoutModel

  /** The counter and the deadline as functions of the history of checks. */
  function Counter(checks: seq<Check>): int {
    if Failures(checks) == 0 then 0 else (Failures(checks) - 1) % ATTEMPTS + 1
  }

  function Deadline(checks: seq<Check>): Option<Time> {
    if Exhausted(checks) then Some(checks[|checks| - 1].time + LOCK_TIME) else None
  }

  ghost predicate AccountsAgree(users: map<string, User>, accounts: Accounts) {
    && users.Keys == accounts.Keys
    && forall email | email in users ::
        users[email] == User(accounts[email].password, Counter(accounts[email].checks),
          Deadline(accounts[email].checks))
  }

  /** The counter stays in 0..5 and is 5 exactly when a deadline is set. */
  lemma CounterRange(checks: seq<Check>)
    ensures 0 <= Counter(checks) <= ATTEMPTS
    ensures Counter(checks) == ATTEMPTS <==> Deadline(checks).Some?
  {
    if Failures(checks) > 0 {
      var q := (Failures(checks) - 1) / ATTEMPTS;
      assert Failures(checks) == ATTEMPTS * q + Counter(checks);
    }
  }

  /** What one more check does to the counter, with an expired lock cleared first. */
  lemma CounterStep(checks: seq<Check>, c: Check)
    ensures c.ok ==> Counter(checks + [c]) == 0 && Deadline(checks + [c]) == None
    ensures !c.ok ==> Counter(checks + [c]) == (if Exhausted(checks) then 0 else Counter(checks)) + 1
    ensures !c.ok ==> Deadline(checks + [c]) == if Counter(checks + [c]) >= 5 then Some(c.time + LOCK_TIME) else None
  {
    var checks' := checks + [c];
    assert checks'[..|checks'| - 1] == checks;
    CounterRange(checks);
    CounterRange(checks');
    if !c.ok && Failures(checks) > 0 {
      var q := (Failures(checks) - 1) / ATTEMPTS;
      assert Failures(checks) == ATTEMPTS * q + Counter(checks);
    }
  }

  /** The newest failure follows either a run that goes on or a full run whose lock it has outlived. */
  lemma RunGrows(checks: seq<Check>, c: Check, p: nat)
    requires IsRun(checks, p) && !c.ok
    ensures IsRun(checks + [c], if |checks| - p == ATTEMPTS then |checks| else p)
  {
    var checks' := checks + [c];
    assert checks'[..|checks|] == checks;
    assert p <= |checks| && checks'[..p] == checks[..p];
  }

  /** The counter counts the present run of failures: those since the last success or expired lock. */
  lemma {:induction false} CounterCountsTheRun(checks: seq<Check>)
    ensures 0 <= Counter(checks) <= |checks| && IsRun(checks, |checks| - Counter(checks))
  {
    CounterRange(checks);
    if checks != [] {
      var front, last := checks[..|checks| - 1], checks[|checks| - 1];
      assert checks == front + [last];
      CounterCountsTheRun(front);
      CounterRange(front);
      CounterStep(front, last);
      if !last.ok {
        RunGrows(front, last, |front| - Counter(front));
      }
    }
  }

  /** Nothing else is a run, so the run, and with it the counter, is determined by the history. */
  lemma {:induction false} RunIsUnique(checks: seq<Check>, p: nat)
    requires IsRun(checks, p)
    ensures Counter(checks) == |checks| - p
  {
    if p < |checks| {
      var front, last := checks[..|checks| - 1], checks[|checks| - 1];
      assert checks == front + [last];
      CounterStep(front, last);
      CounterRange(front);
      if p < |front| {
        assert front[..p] == checks[..p];
        RunIsUnique(front, p);
      } else if p > 0 && !checks[p - 1].ok {
        RunIsUnique(front, p - ATTEMPTS);
      }
    }
  }

  /** A lock is a full run whose fifth failure is less than 300 seconds old. */
  lemma LockedIsFullRun(checks: seq<Check>, p: nat, now: Time)
    requires IsRun(checks, p)
    ensures Locked(checks, now) <==> |checks| == p + ATTEMPTS && now < checks[p + 4].time + LOCK_TIME
  {
    RunIsUnique(checks, p);
    CounterRange(checks);
  }

  /** A run that follows another failure began at least 300 seconds after it. */
  ghost predicate ExpiredBefore(checks: seq<Check>, p: nat) {
    0 < p < |checks| && !checks[p - 1].ok ==> checks[p].time >= checks[p - 1].time + LOCK_TIME
  }

  /** In a lawful history a run that follows a full run began when its lock had expired. */
  lemma LawfulRunExpired(checks: seq<Check>, p: nat)
    requires Lawful(checks) && IsRun(checks, p)
    ensures ExpiredBefore(checks, p)
  {
    if 0 < p < |checks| && !checks[p - 1].ok {
      RunIsUnique(checks[..p], p - ATTEMPTS);
      CounterRange(checks[..p]);
      assert !Locked(checks[..p], checks[p].time);
    }
  }

  class AuthService {
    const db: Tables

    constructor (db: Tables)
      ensures this.db == db
    {
      this.db := db;
    }

    ghost predicate Valid()
      reads this, db
    {
      AccountsAgree(db.users, db.accounts)
    }

    method Register(email: string, password: string, confirmation: string) returns (r: Result<string>)
      requires Valid()
      modifies db`users, db`accounts
      ensures Valid()
      ensures (db.accounts, r) == LockoutModel.Register(old(db.accounts), email, password, confirmation)
    {
      if password != confirmation {
        return Err(ValidationError);
      }
      if !StrongPassphrase(password) {
        return Err(WeakPassphrase);
      }
      if email in db.users {
        return Err(EmailAlreadyExists);
      }
      db.users := db.users[email := User(password, 0, None)];
      db.accounts := db.accounts[email := Account(password, [])];
      r := Ok(email);
    }

    method Login(email: string, password: string, now: Time, token: string) returns (r: Result<string>)
      requires Valid()
      modifies db`users, db`accounts
      ensures Valid()
      ensures (db.accounts, r) == LockoutModel.Login(old(db.accounts), email, password, now, token)
    {
      if email !in db.users {
        return Err(InvalidCredentials);
      }
      ghost var account := db.accounts[email];
      var user := db.users[email];
      if user.lockedUntil.Some? {
        if user.lockedUntil.value > now {
          return Err(AccountLocked);
        }
        user := user.(failedLoginAttempts := 0, lockedUntil := None);
      }
      var valid := password == user.password;
      CounterStep(account.checks, Check(now, valid));
      db.accounts := db.accounts[email := account.(checks := account.checks + [Check(now, valid)])];
      if !valid {
        user := user.(failedLoginAttempts := user.failedLoginAttempts + 1);
        if user.failedLoginAttempts >= 5 {
          user := user.(lockedUntil := Some(now + 300_000_000));
        }
        db.users := db.users[email := user];
        return Err(InvalidCredentials);
      }
      user := user.(failedLoginAttempts := 0, lockedUntil := None);
      db.users := db.users[email := user];
      r := Ok(token);
    }
  }
}
