/**
 * The application service: load the account, run one command on it, save it. A command that
 * throws ends the call before the save. With the volatile repository the loaded account is
 * the stored object itself, so the command changes what is stored even when it throws;
 * with the durable one only a save changes the tables.
 */
module Services {
  import opened Wrappers
  import opened Errors
  import opened Currency
  import opened Rates
  import opened Accounts
  import opened SqliteTables
  import opened Repositories

  /** A durable save of `a`: the tables become what `SaveTables` computes, or stay as they were. */
  predicate Saved<T>(before: Database, after: Database, a: AccountState, r: Result<T, Error>) {
    && SaveTables(before, a) == (if r.Success? then Success(after) else Failure(r.error))
    && (r.Failure? ==> after == before)
  }

  class SavingsAccountService {
    const repository: Repository

    constructor(repository: Repository)
      ensures this.repository == repository
    {
      this.repository := repository;
    }

    /** The primary constructor's argument check: a null repository throws. */
    static method Open(repository: Option<Repository>) returns (r: Result<SavingsAccountService, Error>)
      ensures r.Failure? <==> repository.None?
      ensures r.Failure? ==> r.error == ArgumentNull("repository")
      ensures r.Success? ==> fresh(r.value) && r.value.repository == repository.value
    {
      if repository.None? {
        return Failure(ArgumentNull("repository"));
      }
      var service := new SavingsAccountService(repository.value);
      return Success(service);
    }

    /**
     * `CreateAccountAsync`: an id already in use throws; then the rate is validated; then a
     * new account is constructed and saved.
     */
    method CreateAccount(accountId: string, now: int, interestRate: real := 0.042)
      returns (r: Result<SavingsAccount, Error>)
      requires repository.Valid()
      modifies repository.Footprint()
      ensures repository.Valid()
      ensures repository.Volatile? ==>
        var m := repository.memory;
        && (accountId in old(m.accounts) ==> r == Failure(AlreadyExists(accountId)) && m.accounts == old(m.accounts))
        && (accountId !in old(m.accounts) && NewInterestRate(interestRate).Failure? ==>
              r == Failure(NewInterestRate(interestRate).error) && m.accounts == old(m.accounts))
        && (accountId !in old(m.accounts) && NewInterestRate(interestRate).Success? ==>
              && r.Success? && fresh(r.value) && m.accounts == old(m.accounts)[accountId := r.value]
              && r.value.State() == NewAccount(Some(accountId), Some(NewInterestRate(interestRate).value), now).value)
        && (forall id :: id in old(m.accounts) ==> m.accounts[id].State() == old(m.accounts[id].State()))
      ensures repository.Durable? ==>
        var before, after := old(repository.db.Contents()), repository.db.Contents();
        && (accountId in before.accounts ==> r == Failure(AlreadyExists(accountId)) && after == before)
        && (accountId !in before.accounts && NewInterestRate(interestRate).Failure? ==>
              r == Failure(NewInterestRate(interestRate).error) && after == before)
        && (accountId !in before.accounts && NewInterestRate(interestRate).Success? ==>
              var created := NewAccount(Some(accountId), Some(NewInterestRate(interestRate).value), now).value;
              && Saved(before, after, created, r)
              && (r.Success? ==> fresh(r.value) && r.value.State() == created))
    {
      var taken := repository.Exists(accountId);
      if taken {
        return Failure(AlreadyExists(accountId));
      }
      var rate := NewInterestRate(interestRate);
      if rate.Failure? {
        return Failure(rate.error);
      }
      var account := new SavingsAccount(accountId, now, Some(rate.value));
      r := repository.Save(account);
    }

    /**
     * `GetAccountAsync` (and the identical private `GetAccountInternalAsync` every command
     * starts with): the stored account, or an error naming the id when there is none.
     */
    method GetAccount(accountId: string, env: Env) returns (r: Result<SavingsAccount, Error>)
      requires repository.Valid()
      ensures repository.Volatile? ==>
        r == if accountId in repository.memory.accounts then Success(repository.memory.accounts[accountId])
             else Failure(NotFound(accountId))
      ensures repository.Durable? ==>
        match Load(repository.db.Contents(), accountId, env)
        case Failure(e) => r == Failure(e)
        case Success(None) => r == Failure(NotFound(accountId))
        case Success(Some(s)) => r.Success? && fresh(r.value) && r.value.State() == s
    {
      var found := repository.GetById(accountId, env);
      if found.Failure? {
        return Failure(found.error);
      }
      if found.value.None? {
        return Failure(NotFound(accountId));
      }
      return Success(found.value.value);
    }

    /** `GetBalanceAsync`: the balance of the stored account. */
    method GetBalance(accountId: string, env: Env) returns (r: Result<Money, Error>)
      requires repository.Valid()
      ensures repository.Volatile? ==>
        r == if accountId in repository.memory.accounts then Success(repository.memory.accounts[accountId].balance)
             else Failure(NotFound(accountId))
      ensures repository.Durable? ==>
        match Load(repository.db.Contents(), accountId, env)
        case Failure(e) => r == Failure(e)
        case Success(None) => r == Failure(NotFound(accountId))
        case Success(Some(s)) => r == Success(s.balance)
    {
      var account := GetAccount(accountId, env);
      if account.Failure? {
        return Failure(account.error);
      }
      return Success(account.value.balance);
    }

    /** `DepositAsync`: load, deposit, save. */
    method Deposit(accountId: string, amount: Money, txId: string, now: int, env: Env,
                   idempotencyKey: Option<string> := None)
      returns (r: Result<SavingsAccount, Error>)
      requires repository.Valid()
      modifies repository.Footprint()
      ensures repository.Valid()
      ensures repository.Volatile? ==>
        var m := repository.memory;
        && m.accounts == old(m.accounts)
        && (accountId !in m.accounts ==> r == Failure(NotFound(accountId)))
        && (accountId in m.accounts ==>
              && r == Success(m.accounts[accountId])
              && m.accounts[accountId].State()
                 == DepositStep(old(m.accounts[accountId].State()), amount, txId, now, idempotencyKey))
        && (forall id :: id in m.accounts && id != accountId ==> m.accounts[id].State() == old(m.accounts[id].State()))
      ensures repository.Durable? ==>
        var before, after := old(repository.db.Contents()), repository.db.Contents();
        match Load(before, accountId, env)
        case Failure(e) => r == Failure(e) && after == before
        case Success(None) => r == Failure(NotFound(accountId)) && after == before
        case Success(Some(s)) =>
          var s' := DepositStep(s, amount, txId, now, idempotencyKey);
          Saved(before, after, s', r) && (r.Success? ==> fresh(r.value) && r.value.State() == s')
    {
      var loaded := GetAccount(accountId, env);
      if loaded.Failure? {
        return Failure(loaded.error);
      }
      var account := loaded.value;
      ghost var s := account.State();
      assert repository.Volatile? ==> account in repository.memory.accounts.Values;
      assert account in repository.Footprint() || fresh(account);
      account.Deposit(amount, txId, now, idempotencyKey);
      assert account.State() == DepositStep(s, amount, txId, now, idempotencyKey);
      r := repository.Save(account);
    }

    /** `WithdrawAsync`: load, withdraw, save; a withdrawal that throws is not saved. */
    method Withdraw(accountId: string, amount: Money, txId: string, now: int, env: Env,
                    idempotencyKey: Option<string> := None)
      returns (r: Result<SavingsAccount, Error>)
      requires repository.Valid()
      modifies repository.Footprint()
      ensures repository.Valid()
      ensures repository.Volatile? ==>
        var m := repository.memory;
        && m.accounts == old(m.accounts)
        && (accountId !in m.accounts ==> r == Failure(NotFound(accountId)))
        && (accountId in m.accounts ==>
              var (s', outcome) := WithdrawStep(old(m.accounts[accountId].State()), amount, txId, now, idempotencyKey);
              && m.accounts[accountId].State() == s'
              && r == if outcome.Fail? then Failure(outcome.error) else Success(m.accounts[accountId]))
        && (forall id :: id in m.accounts && id != accountId ==> m.accounts[id].State() == old(m.accounts[id].State()))
      ensures repository.Durable? ==>
        var before, after := old(repository.db.Contents()), repository.db.Contents();
        match Load(before, accountId, env)
        case Failure(e) => r == Failure(e) && after == before
        case Success(None) => r == Failure(NotFound(accountId)) && after == before
        case Success(Some(s)) =>
          var (s', outcome) := WithdrawStep(s, amount, txId, now, idempotencyKey);
          if outcome.Fail? then r == Failure(outcome.error) && after == before
          else Saved(before, after, s', r) && (r.Success? ==> fresh(r.value) && r.value.State() == s')
    {
      var loaded := GetAccount(accountId, env);
      if loaded.Failure? {
        return Failure(loaded.error);
      }
      var account := loaded.value;
      assert repository.Volatile? ==> account in repository.memory.accounts.Values;
      assert account in repository.Footprint() || fresh(account);
      var outcome := account.Withdraw(amount, txId, now, idempotencyKey);
      if outcome.Fail? {
        return Failure(outcome.error);
      }
      r := repository.Save(account);
    }

    /**
     * `AccrueInterestAsync`: load, accrue, save, and return the saved account with the
     * interest earned; an accrual that throws is not saved.
     */
    method AccrueInterest(accountId: string, txId: string, now: int, env: Env,
                          idempotencyKey: Option<string> := None)
      returns (r: Result<(SavingsAccount, Money), Error>)
      requires repository.Valid()
      modifies repository.Footprint()
      ensures repository.Valid()
      ensures repository.Volatile? ==>
        var m := repository.memory;
        && m.accounts == old(m.accounts)
        && (accountId !in m.accounts ==> r == Failure(NotFound(accountId)))
        && (accountId in m.accounts ==>
              var (s', earned) := AccrueStep(old(m.accounts[accountId].State()), txId, now, idempotencyKey);
              && m.accounts[accountId].State() == s'
              && r == if earned.Failure? then Failure(earned.error) else Success((m.accounts[accountId], earned.value)))
        && (forall id :: id in m.accounts && id != accountId ==> m.accounts[id].State() == old(m.accounts[id].State()))
      ensures repository.Durable? ==>
        var before, after := old(repository.db.Contents()), repository.db.Contents();
        match Load(before, accountId, env)
        case Failure(e) => r == Failure(e) && after == before
        case Success(None) => r == Failure(NotFound(accountId)) && after == before
        case Success(Some(s)) =>
          var (s', earned) := AccrueStep(s, txId, now, idempotencyKey);
          if earned.Failure? then r == Failure(earned.error) && after == before
          else Saved(before, after, s', r)
               && (r.Success? ==> fresh(r.value.0) && r.value.0.State() == s' && r.value.1 == earned.value)
    {
      var loaded := GetAccount(accountId, env);
      if loaded.Failure? {
        return Failure(loaded.error);
      }
      var account := loaded.value;
      assert repository.Volatile? ==> account in repository.memory.accounts.Values;
      assert account in repository.Footprint() || fresh(account);
      var interestEarned := account.AccrueInterest(txId, now, idempotencyKey);
      if interestEarned.Failure? {
        return Failure(interestEarned.error);
      }
      var updatedAccount := repository.Save(account);
      if updatedAccount.Failure? {
        return Failure(updatedAccount.error);
      }
      return Success((updatedAccount.value, interestEarned.value));
    }
  }
}
