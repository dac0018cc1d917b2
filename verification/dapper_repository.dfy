/**
 * The durable repository. Its two tables live in the object's fields; every method works on
 * them the way the SQL statements do, and `SaveTables` / `Load` say what the result must be.
 * A save runs inside a database transaction: any failure rolls every write back.
 */
module DapperStore {
  import opened Wrappers
  import opened Errors
  import opened Currency
  import opened Rates
  import opened Ledger
  import opened Accounts
  import opened SqliteTables

  class DapperSavingsAccountRepository {
    const connectionString: string
    var accounts: map<string, AccountRow>
    var transactions: seq<TransactionRow>

    /** The tables the connection string leads to. */
    function Contents(): Database
      reads this
    {
      Database(accounts, transactions)
    }

    /** Connect to a database whose schema is in place and whose tables hold `db`. */
    constructor(connectionString: string, db: Database)
      ensures this.connectionString == connectionString && Contents() == db
    {
      this.connectionString := connectionString;
      accounts := db.accounts;
      transactions := db.transactions;
    }

    /** The public constructor's argument check: a null connection string throws. */
    static method Open(connectionString: Option<string>, db: Database)
      returns (r: Result<DapperSavingsAccountRepository, Error>)
      ensures r.Failure? <==> connectionString.None?
      ensures r.Failure? ==> r.error == ArgumentNull("connectionString")
      ensures r.Success? ==> fresh(r.value) && r.value.connectionString == connectionString.value
                             && r.value.Contents() == db
    {
      if connectionString.None? {
        return Failure(ArgumentNull("connectionString"));
      }
      var repository := new DapperSavingsAccountRepository(connectionString.value, db);
      return Success(repository);
    }

    /** `ExistsAsync`: whether the account row is there. */
    method Exists(id: string) returns (found: bool)
      ensures found <==> id in Contents().accounts
    {
      found := id in accounts;
    }

    /**
     * `GetByIdAsync`: null for an unknown id; otherwise a new account with the stored rate,
     * on which the account's rows are replayed in timestamp order. A command that throws
     * during the replay makes the whole load throw.
     */
    method GetById(id: string, env: Env) returns (r: Result<Option<SavingsAccount>, Error>)
      ensures r.Failure? ==> Load(Contents(), id, env) == Failure(r.error)
      ensures r.Success? && r.value.None? ==> Load(Contents(), id, env) == Success(None)
      ensures r.Success? && r.value.Some? ==> fresh(r.value.value)
                                              && Load(Contents(), id, env) == Success(Some(r.value.value.State()))
    {
      if id !in accounts {
        return Success(None);
      }
      var account := new SavingsAccount(id, env.clock(0), Some(accounts[id].rate));
      var rows := SortByTimestamp(RowsOf(transactions, id));
      var failed := ReplayRows(account, rows, env);
      if failed.Some? {
        return Failure(failed.value);
      }
      return Success(Some(account));
    }

    /** The replay loop: the rows' commands run on `account` in order, up to the first that throws. */
    static method ReplayRows(account: SavingsAccount, rows: seq<TransactionRow>, env: Env) returns (failed: Option<Error>)
      modifies account
      ensures var replayed := Replay(old(account.State()), rows, env);
              if replayed.Success? then failed == None && account.State() == replayed.value
              else failed == Some(replayed.error)
    {
      ghost var init := account.State();
      var k := 0;
      while k < |rows|
        invariant 0 <= k <= |rows|
        invariant Replay(init, rows[..k], env) == Success(account.State())
      {
        assert rows[..k + 1][..k] == rows[..k];
        failed := ApplyRow(account, rows[k], k, env);
        if failed.Some? {
          ReplayFailurePersists(init, rows, k + 1, env);
          return;
        }
        k := k + 1;
      }
      assert rows[..k] == rows;
      return None;
    }

    /** One pass of the replay loop: the command that the row's type code names, run on `account`. */
    static method ApplyRow(account: SavingsAccount, row: TransactionRow, k: nat, env: Env) returns (failed: Option<Error>)
      modifies account
      ensures var next := ReplayRow(old(account.State()), row, k, env);
              if next.Success? then failed == None && account.State() == next.value
              else failed == Some(next.error)
    {
      match TypeFromCode(row.kind) {
        case None =>
          failed := None;
        case Some(Deposit) =>
          account.Deposit(row.amount, env.guid(k), env.clock(k + 1), row.idempotencyKey);
          failed := None;
        case Some(Withdrawal) =>
          var outcome := account.Withdraw(row.amount, env.guid(k), env.clock(k + 1), row.idempotencyKey);
          failed := if outcome.Fail? then Some(outcome.error) else None;
        case Some(InterestAccrual) =>
          var earned := account.AccrueInterest(env.guid(k), env.clock(k + 1), row.idempotencyKey);
          failed := if earned.Failure? then Some(earned.error) else None;
      }
    }

    /**
     * `SaveAsync`: insert the account row if it is missing, collect the keys of the stored
     * rows, keep the log entries whose key is not among them and, if there are any, check
     * and bump the version of an existing row, then insert them. On success the account is
     * returned; on failure the tables are rolled back to what they were.
     */
    method Save(account: SavingsAccount) returns (r: Result<SavingsAccount, Error>)
      modifies this
      ensures SaveTables(old(Contents()), account.State()) == if r.Success? then Success(Contents())
                                                               else Failure(r.error)
      ensures r.Success? ==> r.value == account
      ensures r.Failure? ==> Contents() == old(Contents())
    {
      var snapshot := Contents();
      var a := account.State();
      var accountExists := a.id in accounts;
      if !accountExists {
        accounts := accounts[a.id := AccountRow(a.balance, a.rate, a.createdAt, a.version)];
      }
      var existingSet := CollectKeys(RowsOf(transactions, a.id));
      var newTransactions := NewTransactions(a.log, existingSet);
      assert newTransactions == Added(snapshot, a);
      if |newTransactions| != 0 {
        var failed := WriteNewEntries(snapshot, a, accountExists, newTransactions);
        if failed.Some? {
          return Failure(failed.value);
        }
      }
      return Success(account);
    }

    /**
     * The part of a save that runs when there are new entries: the version compare-and-swap
     * on a row that existed before, then the inserts. Either failure rolls both tables back
     * to `db`, the tables as the save found them.
     */
    method WriteNewEntries(db: Database, a: AccountState, accountExists: bool, newTransactions: seq<Transaction>)
      returns (failed: Option<Error>)
      modifies this
      requires newTransactions == Added(db, a) && |newTransactions| != 0
      requires accountExists <==> a.id in db.accounts
      requires transactions == db.transactions
      requires accounts == if accountExists then db.accounts else AccountsAfterSave(db.accounts, a, |newTransactions|)
      ensures failed.None? ==> SaveTables(db, a) == Success(Contents())
      ensures failed.Some? ==> SaveTables(db, a) == Failure(failed.value) && Contents() == db
    {
      if accountExists {
        var expectedVersion := |a.log| + 1 - |newTransactions|;
        var row := accounts[a.id];
        if row.version != expectedVersion {
          return Some(InvalidOperation(ConcurrentModification));
        }
        accounts := accounts[a.id := row.(balance := a.balance, rate := a.rate, version := a.version)];
      }
      assert accounts == AccountsAfterSave(db.accounts, a, |newTransactions|);
      var inserted := InsertAll(newTransactions);
      if !inserted {
        accounts, transactions := db.accounts, db.transactions;
        return Some(Constraint(DuplicateTransactionId));
      }
      return None;
    }

    /** The loop that inserts the new rows one by one; it stops at the first id already taken. */
    method InsertAll(newTransactions: seq<Transaction>) returns (inserted: bool)
      modifies this
      ensures accounts == old(accounts)
      ensures inserted <==> InsertRows(old(transactions), ToRows(newTransactions)).Success?
      ensures inserted ==> InsertRows(old(transactions), ToRows(newTransactions)) == Success(transactions)
    {
      ghost var table := transactions;
      ghost var rows := ToRows(newTransactions);
      var j := 0;
      while j < |newTransactions|
        invariant 0 <= j <= |newTransactions|
        invariant accounts == old(accounts)
        invariant InsertRows(table, rows[..j]) == Success(transactions)
      {
        var row := ToRow(newTransactions[j]);
        assert rows[..j + 1] == rows[..j] + [row];
        InsertOneMore(table, rows[..j], row);
        if IdTaken(transactions, row.id) {
          InsertFailurePersists(table, rows, j + 1);
          return false;
        }
        transactions := transactions + [row];
        j := j + 1;
      }
      assert rows[..j] == rows;
      return true;
    }
  }

  /** The loop that builds `existingSet`. */
  method CollectKeys(rows: seq<TransactionRow>) returns (existingSet: set<CompositeKey>)
    ensures existingSet == KeySet(rows)
  {
    existingSet := {};
    var i := 0;
    while i < |rows|
      invariant 0 <= i <= |rows|
      invariant existingSet == KeySet(rows[..i])
    {
      assert rows[..i + 1][..i] == rows[..i];
      existingSet := existingSet + {RowKey(rows[i])};
      i := i + 1;
    }
    assert rows[..i] == rows;
  }

  /** Once an insert fails, inserting more rows after it still fails. */
  lemma {:induction false} InsertFailurePersists(table: seq<TransactionRow>, newRows: seq<TransactionRow>, k: nat)
    requires k <= |newRows| && InsertRows(table, newRows[..k]).Failure?
    ensures InsertRows(table, newRows).Failure?
    decreases |newRows| - k
  {
    if k < |newRows| {
      assert newRows[..k + 1][..k] == newRows[..k];
      InsertFailurePersists(table, newRows, k + 1);
    } else {
      assert newRows[..k] == newRows;
    }
  }
}
