/**
 * The SavingsAccount aggregate: a balance, a version counter and an append-only log,
 * changed by Deposit, Withdraw and AccrueInterest.
 *
 * `AccountState` is the value of an account's fields; the step functions say what each
 * command does to it, and the class `SavingsAccount` carries out the same steps in place.
 */
module Accounts {
  import opened Wrappers
  import opened Errors
  import opened Currency
  import opened Rates
  import opened Interest
  import opened Ledger

  datatype AccountState = AccountState(
    id: string,
    balance: Money,
    rate: InterestRate,
    createdAt: int,
    version: int,
    log: seq<Transaction>)

  /** The result of a command that returns nothing: it completes or throws. */
  datatype Outcome = Pass | Fail(error: Error)

  // ---------------------------------------------------------------- queries on the log

  /** Whether some entry of the log carries key `k`. */
  function AnyHasKey(log: seq<Transaction>, k: string): (r: bool)
    ensures r <==> exists i :: 0 <= i < |log| && log[i].idempotencyKey == Some(k)
  {
    if log == [] then false
    else log[|log| - 1].idempotencyKey == Some(k) || AnyHasKey(log[..|log| - 1], k)
  }

  /**
   * `HasDuplicateTransaction`: a null or empty key never deduplicates; any other key does
   * when some entry of any type already carries it.
   */
  function HasDuplicateTransaction(log: seq<Transaction>, idempotencyKey: Option<string>): (r: bool)
    ensures r <==> && idempotencyKey.Some? && idempotencyKey.value != ""
                   && exists i :: 0 <= i < |log| && log[i].idempotencyKey == idempotencyKey
  {
    idempotencyKey.Some? && idempotencyKey.value != "" && AnyHasKey(log, idempotencyKey.value)
  }

  /** What an entry does to the balance, in cents. */
  function Signed(t: Transaction): int {
    match t.kind
    case Deposit => t.amount.cents
    case Withdrawal => 0 - t.amount.cents as int
    case InterestAccrual => t.amount.cents
  }

  /** Deposits and accruals less withdrawals, in cents. */
  function SignedSum(log: seq<Transaction>): int {
    if log == [] then 0 else SignedSum(log[..|log| - 1]) + Signed(log[|log| - 1])
  }

  lemma SignedSumAppend(log: seq<Transaction>, t: Transaction)
    ensures SignedSum(log + [t]) == SignedSum(log) + Signed(t)
  {
    assert (log + [t])[..|log|] == log;
  }

  /** The aggregate's invariant: the version follows the log's length, the balance its sum. */
  predicate Consistent(s: AccountState) {
    && s.version == 1 + |s.log|
    && s.balance.cents == 1 + SignedSum(s.log)
  }

  /** A non-empty key appears on at most one entry. */
  predicate KeysUnique(log: seq<Transaction>) {
    forall i, j :: 0 <= i < j < |log| && log[i].idempotencyKey.Some? && log[i].idempotencyKey.value != ""
      ==> log[j].idempotencyKey != log[i].idempotencyKey
  }

  /** Every entry belongs to the account that holds it. */
  predicate OwnLog(s: AccountState) {
    forall i :: 0 <= i < |s.log| ==> s.log[i].accountId == s.id
  }

  // ---------------------------------------------------------------- the commands

  /**
   * The constructor: a null id throws (an empty one does not); a new account holds 0.01,
   * has version 1, an empty log and the default rate unless one is given.
   */
  function NewAccount(id: Option<string>, interestRate: Option<InterestRate>, now: int): (r: Result<AccountState, Error>)
    ensures r.Success? <==> id.Some?
    ensures r.Failure? ==> r.error == ArgumentNull("id")
    ensures r.Success? ==> && r.value.id == id.value && r.value.balance == Money(1)
                           && r.value.rate == interestRate.GetOr(DefaultRate)
                           && r.value.version == 1 && r.value.log == [] && r.value.createdAt == now
    ensures r.Success? ==> Consistent(r.value) && OwnLog(r.value) && KeysUnique(r.value.log)
  {
    if id.None? then Failure(ArgumentNull("id"))
    else Success(AccountState(id.value, Money(1), interestRate.GetOr(DefaultRate), now, 1, []))
  }

  /** The entry a command appends. */
  function Entry(s: AccountState, txId: string, kind: TransactionType, amount: Money, now: int,
                 idempotencyKey: Option<string>): Transaction
  {
    NewTransaction(Some(txId), Some(s.id), kind, amount, now, idempotencyKey).value
  }

  /**
   * Deposit: the account changes exactly when the key is not a duplicate, and then the log
   * gains one entry, the balance rises by the amount and the version by one.
   */
  function DepositStep(s: AccountState, amount: Money, txId: string, now: int,
                       idempotencyKey: Option<string> := None): (r: AccountState)
    ensures r.id == s.id && r.rate == s.rate && r.createdAt == s.createdAt
    ensures HasDuplicateTransaction(s.log, idempotencyKey) ==> r == s
    ensures !HasDuplicateTransaction(s.log, idempotencyKey) ==>
      && |r.log| == |s.log| + 1 && r.balance.cents == s.balance.cents + amount.cents && r.version == s.version + 1
  {
    if HasDuplicateTransaction(s.log, idempotencyKey) then s
    else
      s.(log := s.log + [Entry(s, txId, Deposit, amount, now, idempotencyKey)],
         balance := Add(s.balance, amount).value,
         version := s.version + 1)
  }

  /**
   * Withdraw. The funds check compares `balance < amount`, so withdrawing exactly the balance
   * passes it: the entry is appended, then the subtraction throws (Money has no zero) and the
   * balance and version are left as they were.
   */
  function WithdrawStep(s: AccountState, amount: Money, txId: string, now: int,
                        idempotencyKey: Option<string> := None): (r: (AccountState, Outcome))
    ensures r.0.id == s.id && r.0.rate == s.rate && r.0.createdAt == s.createdAt
    ensures |r.0.log| <= |s.log| + 1
    ensures r.1 == Pass <==> HasDuplicateTransaction(s.log, idempotencyKey) || amount.cents < s.balance.cents
    ensures r.1.Fail? ==> && r.0.balance == s.balance && r.0.version == s.version
                          && (r.1.error == InvalidOperation(InsufficientFunds) || r.1.error == Argument(BelowMinimumAmount))
  {
    if HasDuplicateTransaction(s.log, idempotencyKey) then (s, Pass)
    else if Less(s.balance, amount) then (s, Fail(InvalidOperation(InsufficientFunds)))
    else
      var logged := s.(log := s.log + [Entry(s, txId, Withdrawal, amount, now, idempotencyKey)]);
      match Sub(s.balance, amount)
      case Failure(e) => (logged, Fail(e))
      case Success(remaining) => (logged.(balance := remaining, version := s.version + 1), Pass)
  }

  /**
   * AccrueInterest. A duplicate key returns 0.01 as a sentinel. Otherwise the interest earned
   * is the compounded balance less the balance: below a cent the subtraction throws, exactly a
   * cent is returned without being applied, and more than a cent is logged and applied.
   */
  function AccrueStep(s: AccountState, txId: string, now: int,
                      idempotencyKey: Option<string> := None): (r: (AccountState, Result<Money, Error>))
    ensures r.0.id == s.id && r.0.rate == s.rate && r.0.createdAt == s.createdAt
    ensures |r.0.log| <= |s.log| + 1
    ensures r.0.balance.cents >= s.balance.cents
    ensures r.1.Failure? ==> r.0 == s && r.1.error == Argument(BelowMinimumAmount)
  {
    if HasDuplicateTransaction(s.log, idempotencyKey) then (s, Success(Money(1)))
    else
      var newBalance := CompoundInterest(s.balance, s.rate).value;
      match Sub(newBalance, s.balance)
      case Failure(e) => (s, Failure(e))
      case Success(earned) =>
        if earned.Amount() > MinimumAmount then
          (s.(log := s.log + [Entry(s, txId, InterestAccrual, earned, now, idempotencyKey)],
              balance := newBalance,
              version := s.version + 1),
           Success(earned))
        else (s, Success(earned))
  }

  // ---------------------------------------------------------------- properties of the commands

  /** A non-empty key already in the log makes every command a no-op; accrual returns 0.01. */
  lemma DuplicateKeyIsNoOp(s: AccountState, amount: Money, txId: string, now: int, k: string)
    requires k != "" && exists i :: 0 <= i < |s.log| && s.log[i].idempotencyKey == Some(k)
    ensures DepositStep(s, amount, txId, now, Some(k)) == s
    ensures WithdrawStep(s, amount, txId, now, Some(k)) == (s, Pass)
    ensures AccrueStep(s, txId, now, Some(k)) == (s, Success(Money(1)))
  {
  }

  /** A null or empty key never deduplicates: a deposit with one always appends. */
  lemma {:induction false} MissingKeyNeverDeduplicates(s: AccountState, amount: Money, txId: string, now: int,
                                                      key: Option<string>)
    requires key == None || key == Some("")
    ensures |DepositStep(s, amount, txId, now, key).log| == |s.log| + 1
  {
  }

  /** A deposit with a fresh (or no) key appends one Deposit entry, adds the amount, bumps the version. */
  lemma {:induction false} DepositFreshKey(s: AccountState, amount: Money, txId: string, now: int,
                                           key: Option<string>)
    requires !HasDuplicateTransaction(s.log, key)
    ensures var s' := DepositStep(s, amount, txId, now, key);
      && s'.log == s.log + [Transaction(txId, s.id, Deposit, amount, now, key)]
      && s'.balance.cents == s.balance.cents + amount.cents
      && s'.version == s.version + 1
      && s'.id == s.id && s'.rate == s.rate
  {
  }

  /** Applying the same keyed deposit twice is the same as applying it once. */
  lemma {:induction false} DepositIdempotent(s: AccountState, amount: Money, txId: string, txId': string,
                                             now: int, now': int, k: string)
    requires k != ""
    ensures var once := DepositStep(s, amount, txId, now, Some(k));
      DepositStep(once, amount, txId', now', Some(k)) == once
  {
    var once := DepositStep(s, amount, txId, now, Some(k));
    if !HasDuplicateTransaction(s.log, Some(k)) {
      assert once.log[|s.log|].idempotencyKey == Some(k);
    }
    assert HasDuplicateTransaction(once.log, Some(k));
  }

  /** A withdrawal above the balance throws "Insufficient funds" and changes nothing. */
  lemma InsufficientFundsChangesNothing(s: AccountState, amount: Money, txId: string, now: int,
                                        key: Option<string>)
    requires !HasDuplicateTransaction(s.log, key) && s.balance.cents < amount.cents
    ensures WithdrawStep(s, amount, txId, now, key) == (s, Fail(InvalidOperation(InsufficientFunds)))
  {
  }

  /** A withdrawal below the balance appends one entry, subtracts the amount, bumps the version. */
  lemma {:induction false} WithdrawBelowBalance(s: AccountState, amount: Money, txId: string, now: int,
                                                key: Option<string>)
    requires !HasDuplicateTransaction(s.log, key) && s.balance.cents > amount.cents
    ensures var (s', outcome) := WithdrawStep(s, amount, txId, now, key);
      && outcome == Pass
      && s'.log == s.log + [Transaction(txId, s.id, Withdrawal, amount, now, key)]
      && s'.balance.cents == s.balance.cents - amount.cents
      && s'.version == s.version + 1
  {
  }

  /**
   * Withdrawing exactly the balance throws from the subtraction after the entry was appended:
   * the log grows by one while balance and version stay, so a consistent account stops being one.
   */
  lemma {:induction false} WithdrawExactBalance(s: AccountState, txId: string, now: int, key: Option<string>)
    requires !HasDuplicateTransaction(s.log, key)
    ensures var (s', outcome) := WithdrawStep(s, s.balance, txId, now, key);
      && outcome == Fail(Argument(BelowMinimumAmount))
      && |s'.log| == |s.log| + 1
      && s'.balance == s.balance && s'.version == s.version
      && (Consistent(s) ==> !Consistent(s'))
  {
  }

  /** The four outcomes of accrual, by the interest the calculator yields. */
  lemma {:induction false} AccrueOutcomes(s: AccountState, txId: string, now: int, key: Option<string>)
    requires !HasDuplicateTransaction(s.log, key)
    ensures var newBalance := CompoundInterest(s.balance, s.rate).value;
      var earned := newBalance.cents - s.balance.cents;
      var (s', r) := AccrueStep(s, txId, now, key);
      && (earned < 1 ==> s' == s && r == Failure(Argument(BelowMinimumAmount)))
      && (earned == 1 ==> s' == s && r == Success(Money(1)))
      && (earned > 1 ==> && r == Success(Money(earned))
                         && s'.log == s.log + [Transaction(txId, s.id, InterestAccrual, Money(earned), now, key)]
                         && s'.balance == newBalance && s'.version == s.version + 1)
  {
  }

  /** At a zero rate there is no interest, so accrual with a fresh key throws. */
  lemma {:induction false} AccrueAtZeroRateThrows(s: AccountState, txId: string, now: int, key: Option<string>)
    requires !HasDuplicateTransaction(s.log, key) && s.rate.value == 0.0
    ensures AccrueStep(s, txId, now, key) == (s, Failure(Argument(BelowMinimumAmount)))
  {
    assert CompoundInterest(s.balance, s.rate).value == s.balance;
  }

  /** Every successful command keeps the version equal to 1 + |log| and the balance equal to the log's sum. */
  lemma {:induction false} CommandsPreserveConsistency(s: AccountState, amount: Money, txId: string, now: int,
                                                       key: Option<string>)
    requires Consistent(s)
    ensures Consistent(DepositStep(s, amount, txId, now, key))
    ensures WithdrawStep(s, amount, txId, now, key).1 == Pass ==> Consistent(WithdrawStep(s, amount, txId, now, key).0)
    ensures AccrueStep(s, txId, now, key).1.Success? ==> Consistent(AccrueStep(s, txId, now, key).0)
  {
    SignedSumAppend(s.log, Entry(s, txId, Deposit, amount, now, key));
    SignedSumAppend(s.log, Entry(s, txId, Withdrawal, amount, now, key));
    var newBalance := CompoundInterest(s.balance, s.rate).value;
    if newBalance.cents - s.balance.cents >= 1 {
      SignedSumAppend(s.log, Entry(s, txId, InterestAccrual, Money(newBalance.cents - s.balance.cents), now, key));
    }
  }

  lemma KeysUniqueAppend(log: seq<Transaction>, t: Transaction)
    requires KeysUnique(log) && !HasDuplicateTransaction(log, t.idempotencyKey)
    ensures KeysUnique(log + [t])
  {
  }

  /**
   * No command, whether it completes or throws, ever puts a second entry with the same
   * non-empty key in the log; and every entry it adds belongs to the account.
   */
  lemma {:induction false} CommandsPreserveKeyUniqueness(s: AccountState, amount: Money, txId: string, now: int,
                                                         key: Option<string>)
    requires KeysUnique(s.log) && OwnLog(s)
    ensures KeysUnique(DepositStep(s, amount, txId, now, key).log) && OwnLog(DepositStep(s, amount, txId, now, key))
    ensures KeysUnique(WithdrawStep(s, amount, txId, now, key).0.log) && OwnLog(WithdrawStep(s, amount, txId, now, key).0)
    ensures KeysUnique(AccrueStep(s, txId, now, key).0.log) && OwnLog(AccrueStep(s, txId, now, key).0)
  {
    if !HasDuplicateTransaction(s.log, key) {
      KeysUniqueAppend(s.log, Entry(s, txId, Deposit, amount, now, key));
      KeysUniqueAppend(s.log, Entry(s, txId, Withdrawal, amount, now, key));
      var newBalance := CompoundInterest(s.balance, s.rate).value;
      if newBalance.cents - s.balance.cents >= 1 {
        KeysUniqueAppend(s.log, Entry(s, txId, InterestAccrual, Money(newBalance.cents - s.balance.cents), now, key));
      }
    }
  }

  /** The version never goes down, and the log only grows at its end. */
  lemma {:induction false} CommandsOnlyAppend(s: AccountState, amount: Money, txId: string, now: int,
                                              key: Option<string>)
    ensures var s' := DepositStep(s, amount, txId, now, key); s'.version >= s.version && s.log <= s'.log
    ensures var s' := WithdrawStep(s, amount, txId, now, key).0; s'.version >= s.version && s.log <= s'.log
    ensures var s' := AccrueStep(s, txId, now, key).0; s'.version >= s.version && s.log <= s'.log
  {
  }

  /**
   * Create "acct-1", deposit 100.00, withdraw 50.00, then try to withdraw 100.00: balances
   * 0.01, 100.01, 50.01, and the last withdrawal fails leaving 50.01 at version 3.
   */
  lemma {:induction false} AccountScenario(t0: int, t1: int, t2: int, t3: int)
    ensures var s0 := NewAccount(Some("acct-1"), None, t0).value;
      var s1 := DepositStep(s0, Money(10000), "tx-1", t1);
      var (s2, o2) := WithdrawStep(s1, Money(5000), "tx-2", t2);
      var (s3, o3) := WithdrawStep(s2, Money(10000), "tx-3", t3);
      && s0.balance == Money(1) && s0.version == 1
      && s1.balance == Money(10001) && s1.version == 2
      && o2 == Pass && s2.balance == Money(5001) && s2.version == 3
      && o3 == Fail(InvalidOperation(InsufficientFunds)) && s3 == s2
  {
  }

  // ---------------------------------------------------------------- the aggregate in place

  class SavingsAccount {
    const id: string
    var balance: Money
    const interestRate: InterestRate
    const createdAt: int
    var version: int
    var transactions: seq<Transaction>

    /** The account's fields as a value. */
    function State(): AccountState
      reads this
    {
      AccountState(id, balance, interestRate, createdAt, version, transactions)
    }

    constructor(id: string, now: int, interestRate: Option<InterestRate> := None)
      ensures NewAccount(Some(id), interestRate, now) == Success(State())
    {
      this.id := id;
      this.interestRate := interestRate.GetOr(DefaultRate);
      balance := Money(1);
      createdAt := now;
      version := 1;
      transactions := [];
    }

    method Deposit(amount: Money, txId: string, now: int, idempotencyKey: Option<string> := None)
      modifies this
      ensures State() == DepositStep(old(State()), amount, txId, now, idempotencyKey)
    {
      if HasDuplicateTransaction(transactions, idempotencyKey) {
        return;
      }
      var transaction := NewTransaction(Some(txId), Some(id), Ledger.Deposit, amount, now, idempotencyKey).value;
      transactions := transactions + [transaction];
      balance := Add(balance, amount).value;
      version := version + 1;
    }

    method Withdraw(amount: Money, txId: string, now: int, idempotencyKey: Option<string> := None)
      returns (outcome: Outcome)
      modifies this
      ensures (State(), outcome) == WithdrawStep(old(State()), amount, txId, now, idempotencyKey)
    {
      if HasDuplicateTransaction(transactions, idempotencyKey) {
        return Pass;
      }
      if Less(balance, amount) {
        return Fail(InvalidOperation(InsufficientFunds));
      }
      var transaction := NewTransaction(Some(txId), Some(id), Withdrawal, amount, now, idempotencyKey).value;
      transactions := transactions + [transaction];
      var remaining := Sub(balance, amount);
      if remaining.Failure? {
        return Fail(remaining.error);
      }
      balance := remaining.value;
      version := version + 1;
      return Pass;
    }

    method AccrueInterest(txId: string, now: int, idempotencyKey: Option<string> := None)
      returns (interestEarned: Result<Money, Error>)
      modifies this
      ensures (State(), interestEarned) == AccrueStep(old(State()), txId, now, idempotencyKey)
    {
      if HasDuplicateTransaction(transactions, idempotencyKey) {
        return Success(Money(1));
      }
      var newBalance := CompoundInterest(balance, interestRate).value;
      interestEarned := Sub(newBalance, balance);
      if interestEarned.Failure? {
        return;
      }
      if interestEarned.value.Amount() > MinimumAmount {
        var transaction := NewTransaction(Some(txId), Some(id), InterestAccrual, interestEarned.value, now,
                                          idempotencyKey).value;
        transactions := transactions + [transaction];
        balance := newBalance;
        version := version + 1;
      }
    }
  }
}
