/** When the vault is open, and how vault calls are answered, told from earlier requests and answers alone. */
module LockHistory {
  import opened Basics
  import opened Validation
  import opened Crypto
  import opened System
  import VaultModel
  import VaultTheorems

  /** Request i unlocked the vault. */
  ghost predicate Unlocks(suite: Suite, requests: seq<Request>, i: nat)
    requires i < |requests|
  {
    requests[i].Vault? && requests[i].call.Unlock? && Answer(suite, requests, i) == Done
  }

  ghost predicate Initialises(suite: Suite, requests: seq<Request>, i: nat)
    requires i < |requests|
  {
    requests[i].Vault? && requests[i].call.Init? && Answer(suite, requests, i) == Done
  }

  /** Request i left the vault locked: a lock, a restart, or the successful initialisation. */
  ghost predicate Locks(suite: Suite, requests: seq<Request>, i: nat)
    requires i < |requests|
  {
    (requests[i].Vault? && (requests[i].call.Lock? || requests[i].call.Restart?)) || Initialises(suite, requests, i)
  }

  ghost predicate OpenSince(suite: Suite, requests: seq<Request>, i: nat, j: nat)
    requires j <= |requests|
  {
    i < j && Unlocks(suite, requests, i) && forall k | i < k < j :: !Locks(suite, requests, k)
  }

  /** The vault is open before request j: some earlier unlock succeeded and nothing locked it since. */
  ghost predicate IsOpen(suite: Suite, requests: seq<Request>, j: nat)
    requires j <= |requests|
  {
    exists i :: OpenSince(suite, requests, i, j)
  }

  ghost predicate Initialised(suite: Suite, requests: seq<Request>, j: nat)
    requires j <= |requests|
  {
    exists i :: 0 <= i < j && Initialises(suite, requests, i)
  }

  lemma CoreStep(suite: Suite, core: VaultModel.Core, call: VaultCall)
    ensures var (core', response) := VaultStep(suite, core, call);
            && (core'.unlocked <==>
                  (call.Unlock? && response == Done)
                  || (core.unlocked && !call.Lock? && !call.Restart? && !(call.Init? && response == Done)))
            && (core'.master.Some? <==> core.master.Some? || (call.Init? && response == Done))
  {
    hide StrongPassphrase;
  }

  /** What one request does to the lock and to the master data. */
  lemma LockStep(suite: Suite, requests: seq<Request>, i: nat)
    requires i < |requests|
    ensures Before(suite, requests, i + 1).core.unlocked <==>
      Unlocks(suite, requests, i) || (Before(suite, requests, i).core.unlocked && !Locks(suite, requests, i))
    ensures Before(suite, requests, i + 1).core.master.Some? <==>
      Before(suite, requests, i).core.master.Some? || Initialises(suite, requests, i)
  {
    OneStep(suite, requests, i);
    hide Before, VaultStep, KvStep, KeyStep, Audited, StrongPassphrase;
    if requests[i].Vault? {
      CoreStep(suite, Before(suite, requests, i).core, requests[i].call);
    }
  }

  lemma {:induction false} OpenExactly(suite: Suite, requests: seq<Request>, j: nat)
    requires j <= |requests|
    ensures Before(suite, requests, j).core.unlocked <==> IsOpen(suite, requests, j)
  {
    hide Before, Unlocks, Locks, IsOpen, OpenSince;
    if j == 0 {
      AtStart(suite, requests);
      NeverOpenAtStart(suite, requests);
    } else {
      OpenExactly(suite, requests, j - 1);
      LockStep(suite, requests, j - 1);
      OpenStep(suite, requests, j - 1);
    }
  }

  lemma NeverOpenAtStart(suite: Suite, requests: seq<Request>)
    ensures !IsOpen(suite, requests, 0)
  {
  }

  lemma OpenSinceStep(suite: Suite, requests: seq<Request>, k: nat, i: nat)
    requires i < |requests|
    ensures OpenSince(suite, requests, k, i + 1) <==>
      (k == i && Unlocks(suite, requests, i)) || (OpenSince(suite, requests, k, i) && !Locks(suite, requests, i))
  {
    hide Unlocks, Locks;
  }

  lemma OpenStep(suite: Suite, requests: seq<Request>, i: nat)
    requires i < |requests|
    ensures IsOpen(suite, requests, i + 1) <==>
      Unlocks(suite, requests, i) || (IsOpen(suite, requests, i) && !Locks(suite, requests, i))
  {
    hide OpenSince, Unlocks, Locks;
    if Unlocks(suite, requests, i) {
      OpenSinceStep(suite, requests, i, i);
    } else if IsOpen(suite, requests, i) && !Locks(suite, requests, i) {
      var k: nat :| OpenSince(suite, requests, k, i);
      OpenSinceStep(suite, requests, k, i);
    }
    if IsOpen(suite, requests, i + 1) {
      var k: nat :| OpenSince(suite, requests, k, i + 1);
      OpenSinceStep(suite, requests, k, i);
    }
  }

  lemma {:induction false} InitialisedExactly(suite: Suite, requests: seq<Request>, j: nat)
    requires j <= |requests|
    ensures Before(suite, requests, j).core.master.Some? <==> Initialised(suite, requests, j)
  {
    hide Before, Initialises;
    if j == 0 {
      AtStart(suite, requests);
    } else {
      InitialisedExactly(suite, requests, j - 1);
      LockStep(suite, requests, j - 1);
    }
  }

  /** `init` succeeds for a confirmed strong passphrase if no earlier one did; the refusals come in this order. */
  lemma InitAnswered(suite: Suite, requests: seq<Request>, j: nat)
    requires j < |requests| && requests[j].Vault? && requests[j].call.Init?
    ensures Answer(suite, requests, j) ==
      if Initialised(suite, requests, j) then Failed(VaultAlreadyInitialized)
      else if requests[j].call.passphrase != requests[j].call.confirmation then Failed(ValidationError)
      else if !StrongPassphrase(requests[j].call.passphrase) then Failed(WeakPassphrase)
      else Done
  {
    InitialisedExactly(suite, requests, j);
    hide Before, StrongPassphrase;
  }

  /** The initialisation fixes the salt and the DEK that it drew, and the key derived from its passphrase. */
  lemma InitStores(suite: Suite, requests: seq<Request>, i: nat, j: nat)
    requires i < j <= |requests| && Initialises(suite, requests, i)
    ensures var init := requests[i].call;
            Before(suite, requests, j).core.master
              == Some(VaultModel.Master(init.salt, suite.kdf(init.passphrase, init.salt), init.dek))
  {
    OneStep(suite, requests, i);
    hide Before, StrongPassphrase;
    VaultTheorems.MasterIsForever(suite, requests, i + 1, j);
  }

  /** Before `init` there is nothing to unlock; afterwards the passphrase decides. */
  lemma UnlockAnswered(suite: Suite, requests: seq<Request>, j: nat)
    requires j < |requests| && requests[j].Vault? && requests[j].call.Unlock?
    ensures !Initialised(suite, requests, j) ==> Answer(suite, requests, j) == Failed(VaultNotInitialized)
    ensures forall i | 0 <= i < j && Initialises(suite, requests, i) ::
      var init, p := requests[i].call, requests[j].call.passphrase;
      Answer(suite, requests, j) ==
        if suite.kdf(p, init.salt) == suite.kdf(init.passphrase, init.salt) then Done
        else Failed(InvalidMasterPassphrase)
  {
    InitialisedExactly(suite, requests, j);
    forall i | 0 <= i < j && Initialises(suite, requests, i)
      ensures var init, p := requests[i].call, requests[j].call.passphrase;
        Answer(suite, requests, j) ==
          if suite.kdf(p, init.salt) == suite.kdf(init.passphrase, init.salt) then Done
          else Failed(InvalidMasterPassphrase)
    {
      VaultTheorems.UnlockNeedsThePassphrase(suite, requests, i, j);
    }
    hide Before;
  }

  lemma LockAnswered(suite: Suite, requests: seq<Request>, j: nat)
    requires j < |requests| && requests[j].Vault? && (requests[j].call.Lock? || requests[j].call.Restart?)
    ensures Answer(suite, requests, j) == Done
  {
    hide Before;
  }

  /**
   After a lock, a restart or the initialisation, up to the next successful unlock, every KV and transit
   request fails and changes nothing but the audit log.
   */
  lemma ShutUntilUnlocked(suite: Suite, requests: seq<Request>, i: nat, j: nat)
    requires i < j < |requests| && Locks(suite, requests, i)
    requires forall k | i < k < j :: !Unlocks(suite, requests, k)
    requires requests[j].As? && !requests[j].use.VerifyAudit?
    ensures Answer(suite, requests, j).Failed?
    ensures Before(suite, requests, j + 1) ==
      Before(suite, requests, j).(audit := Before(suite, requests, j + 1).audit)
  {
    OpenExactly(suite, requests, j);
    OneStep(suite, requests, j);
    assert !IsOpen(suite, requests, j) by {
      LocksEnd(suite, requests, i, j);
    }
    hide Before, Step, Locks, Unlocks, IsOpen;
    VaultTheorems.LockedMeansUntouched(suite, Before(suite, requests, j), requests[j]);
  }

  lemma LocksEnd(suite: Suite, requests: seq<Request>, i: nat, j: nat)
    requires i < j <= |requests| && Locks(suite, requests, i)
    requires forall k | i < k < j :: !Unlocks(suite, requests, k)
    ensures !IsOpen(suite, requests, j)
  {
    forall k: nat
      ensures !OpenSince(suite, requests, k, j)
    {
      hide Answer;
    }
  }
}
