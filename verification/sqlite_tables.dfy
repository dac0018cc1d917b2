/**
 * The durable store's two tables and what its queries and its save compute over them.
 *
 * `SavingsAccounts` is a map from account id to its row; `Transactions` is the sequence of
 * rows in insertion order. Loading rebuilds an account by replaying its rows, in timestamp
 * order, through the account's own commands; saving inserts the log entries whose
 * (idempotency key, amount, type) matches no stored row, after a compare-and-swap on the
 * version column, all or nothing.
 */
module SqliteTables {
  import opened Wrappers
  import opened Errors
  import opened Currency
  import opened Rates
  import opened Ledger
  import opened Accounts

  /** A `SavingsAccounts` row; its id is the map key. */
  datatype AccountRow = AccountRow(balance: Money, rate: InterestRate, createdAt: int, version: int)

  /** A `Transactions` row; the type column holds the enum's integer code. */
  datatype TransactionRow = TransactionRow(
    id: string,
    accountId: string,
    kind: int,
    amount: Money,
    timestamp: int,
    idempotencyKey: Option<string>)

  datatype Database = Database(accounts: map<string, AccountRow>, transactions: seq<TransactionRow>)

  /**
   * What `Guid.NewGuid()` and `DateTime.UtcNow` return while an account is rebuilt: `clock(0)`
   * when the account is constructed; `guid(k)` and `clock(k + 1)` when row k is replayed.
   */
  datatype Env = Env(guid: nat -> string, clock: nat -> int)

  /** Every transaction row belongs to an account row (rows are only written after their account). */
  predicate WellFormed(db: Database) {
    forall i :: 0 <= i < |db.transactions| ==> db.transactions[i].accountId in db.accounts
  }

  // ---------------------------------------------------------------- writing and selecting rows

  function ToRow(t: Transaction): TransactionRow {
    TransactionRow(t.id, t.accountId, TypeCode(t.kind), t.amount, t.timestamp, t.idempotencyKey)
  }

  function ToRows(log: seq<Transaction>): (rows: seq<TransactionRow>)
    ensures |rows| == |log|
    ensures forall i :: 0 <= i < |log| ==> rows[i] == ToRow(log[i])
  {
    if log == [] then [] else ToRows(log[..|log| - 1]) + [ToRow(log[|log| - 1])]
  }

  lemma ToRowsAppend(log: seq<Transaction>, t: Transaction)
    ensures ToRows(log + [t]) == ToRows(log) + [ToRow(t)]
  {
  }

  /** `WHERE AccountId = @id`, keeping the rows' order. */
  function RowsOf(rows: seq<TransactionRow>, accountId: string): (r: seq<TransactionRow>)
    ensures |r| <= |rows|
    ensures forall x :: x in r <==> x in rows && x.accountId == accountId
    ensures (forall i :: 0 <= i < |rows| ==> rows[i].accountId != accountId) ==> r == []
  {
    if rows == [] then []
    else
      var rest := RowsOf(rows[..|rows| - 1], accountId);
      var last := rows[|rows| - 1];
      assert rows == rows[..|rows| - 1] + [last];
      if last.accountId == accountId then rest + [last] else rest
  }

  lemma {:induction false} RowsOfAppend(rows: seq<TransactionRow>, more: seq<TransactionRow>, accountId: string)
    ensures RowsOf(rows + more, accountId) == RowsOf(rows, accountId) + RowsOf(more, accountId)
    decreases |more|
  {
    if more == [] {
      assert rows + more == rows;
    } else {
      var init := more[..|more| - 1];
      assert (rows + more)[..|rows + more| - 1] == rows + init;
      RowsOfAppend(rows, init, accountId);
    }
  }

  lemma {:induction false} RowsOfOwnRows(rows: seq<TransactionRow>, accountId: string)
    requires forall i :: 0 <= i < |rows| ==> rows[i].accountId == accountId
    ensures RowsOf(rows, accountId) == rows
  {
    if rows != [] {
      var init, last := rows[..|rows| - 1], rows[|rows| - 1];
      RowsOfOwnRows(init, accountId);
      assert RowsOf(rows, accountId) == RowsOf(init, accountId) + [last];
      assert rows == init + [last];
    }
  }

  // ---------------------------------------------------------------- ORDER BY Timestamp

  predicate SortedByTimestamp(rows: seq<TransactionRow>) {
    forall i, j :: 0 <= i < j < |rows| ==> rows[i].timestamp <= rows[j].timestamp
  }

  /**
   * No two rows share a timestamp, so `ORDER BY Timestamp` has a single answer; with a tie
   * SQLite may return either row first (see `TieOrderMatters`).
   */
  predicate DistinctTimestamps(rows: seq<TransactionRow>) {
    forall i, j :: 0 <= i < j < |rows| ==> rows[i].timestamp != rows[j].timestamp
  }

  /** Put `row` after every row whose timestamp is not later than its own. */
  function InsertByTimestamp(sorted: seq<TransactionRow>, row: TransactionRow): (r: seq<TransactionRow>)
    ensures |r| == |sorted| + 1
    ensures multiset(r) == multiset(sorted) + multiset{row}
  {
    if sorted == [] || sorted[|sorted| - 1].timestamp <= row.timestamp then sorted + [row]
    else
      var init := sorted[..|sorted| - 1];
      assert sorted == init + [sorted[|sorted| - 1]];
      InsertByTimestamp(init, row) + [sorted[|sorted| - 1]]
  }

  /** Inserting a row no later than `bound` into rows no later than `bound` keeps them so. */
  lemma InsertNoLater(sorted: seq<TransactionRow>, row: TransactionRow, bound: int)
    requires forall i :: 0 <= i < |sorted| ==> sorted[i].timestamp <= bound
    requires row.timestamp <= bound
    ensures forall i :: 0 <= i < |InsertByTimestamp(sorted, row)| ==> InsertByTimestamp(sorted, row)[i].timestamp <= bound
  {
    var r := InsertByTimestamp(sorted, row);
    forall i | 0 <= i < |r|
      ensures r[i].timestamp <= bound
    {
      assert r[i] in multiset(r);
      if r[i] != row {
        assert r[i] in multiset(sorted);
        var j :| 0 <= j < |sorted| && sorted[j] == r[i];
      }
    }
  }

  /** Appending a row no earlier than every sorted row keeps them sorted. */
  lemma SortedAppendLatest(rows: seq<TransactionRow>, last: TransactionRow)
    requires SortedByTimestamp(rows)
    requires forall i :: 0 <= i < |rows| ==> rows[i].timestamp <= last.timestamp
    ensures SortedByTimestamp(rows + [last])
  {
    var r := rows + [last];
    assert forall i :: 0 <= i < |rows| ==> r[i] == rows[i];
  }

  /** A sorted sequence's last row is no earlier than any before it, and the rest is sorted. */
  lemma SortedInit(rows: seq<TransactionRow>)
    requires rows != [] && SortedByTimestamp(rows)
    ensures SortedByTimestamp(rows[..|rows| - 1])
    ensures forall i :: 0 <= i < |rows| - 1 ==> rows[i].timestamp <= rows[|rows| - 1].timestamp
    ensures |rows| == 1 || rows[|rows| - 2].timestamp <= rows[|rows| - 1].timestamp
  {
  }

  lemma {:induction false} InsertKeepsSorted(sorted: seq<TransactionRow>, row: TransactionRow)
    requires SortedByTimestamp(sorted)
    ensures SortedByTimestamp(InsertByTimestamp(sorted, row))
  {
    if !(sorted == [] || sorted[|sorted| - 1].timestamp <= row.timestamp) {
      var init, last := sorted[..|sorted| - 1], sorted[|sorted| - 1];
      SortedInit(sorted);
      InsertKeepsSorted(init, row);
      InsertNoLater(init, row, last.timestamp);
      SortedAppendLatest(InsertByTimestamp(init, row), last);
    }
  }

  /**
   * The order the rows come back in: sorted by timestamp, rows with equal timestamps in
   * insertion order (SQLite leaves the order of ties open; this is one admissible order).
   */
  function SortByTimestamp(rows: seq<TransactionRow>): (r: seq<TransactionRow>)
    ensures SortedByTimestamp(r)
    ensures multiset(r) == multiset(rows)
  {
    if rows == [] then []
    else
      assert rows == rows[..|rows| - 1] + [rows[|rows| - 1]];
      var sorted := SortByTimestamp(rows[..|rows| - 1]);
      InsertKeepsSorted(sorted, rows[|rows| - 1]);
      InsertByTimestamp(sorted, rows[|rows| - 1])
  }

  /** A row no earlier than the last of rows the sort leaves alone goes at the end. */
  lemma SortAppendLatest(rows: seq<TransactionRow>)
    requires rows != [] && SortByTimestamp(rows[..|rows| - 1]) == rows[..|rows| - 1]
    requires |rows| == 1 || rows[|rows| - 2].timestamp <= rows[|rows| - 1].timestamp
    ensures SortByTimestamp(rows) == rows
  {
    SplitLast(rows);
  }

  lemma SplitLast(rows: seq<TransactionRow>)
    requires rows != []
    ensures rows == rows[..|rows| - 1] + [rows[|rows| - 1]]
  {
  }

  /** Rows already in timestamp order come back as they are. */
  lemma {:induction false} SortSortedIsIdentity(rows: seq<TransactionRow>)
    requires SortedByTimestamp(rows)
    ensures SortByTimestamp(rows) == rows
  {
    if rows != [] {
      SortedInit(rows);
      SortSortedIsIdentity(rows[..|rows| - 1]);
      SortAppendLatest(rows);
    }
  }

  // ---------------------------------------------------------------- GetByIdAsync: replay

  /**
   * Replaying row `k`: its type code picks the command; an unknown code is skipped. A row
   * adds at most one entry and never changes the id, rate or creation time; it throws only
   * what a withdrawal or an accrual throws.
   */
  function ReplayRow(s: AccountState, row: TransactionRow, k: nat, env: Env): (r: Result<AccountState, Error>)
    ensures TypeFromCode(row.kind).None? ==> r == Success(s)
    ensures r.Success? ==> && r.value.id == s.id && r.value.rate == s.rate && r.value.createdAt == s.createdAt
                           && |r.value.log| <= |s.log| + 1
    ensures r.Failure? ==> ReplayError(r.error)
  {
    match TypeFromCode(row.kind)
    case None => Success(s)
    case Some(Deposit) =>
      Success(DepositStep(s, row.amount, env.guid(k), env.clock(k + 1), row.idempotencyKey))
    case Some(Withdrawal) =>
      var (s', outcome) := WithdrawStep(s, row.amount, env.guid(k), env.clock(k + 1), row.idempotencyKey);
      if outcome.Fail? then Failure(outcome.error) else Success(s')
    case Some(InterestAccrual) =>
      var (s', earned) := AccrueStep(s, env.guid(k), env.clock(k + 1), row.idempotencyKey);
      if earned.Failure? then Failure(earned.error) else Success(s')
  }

  /** The errors a replayed command can throw. */
  predicate ReplayError(e: Error) {
    e == InvalidOperation(InsufficientFunds) || e == Argument(BelowMinimumAmount)
  }

  /**
   * Replaying rows in order; the first command that throws ends the replay. The result
   * extends the initial log by at most one entry per row and keeps the id, rate and
   * creation time.
   */
  function Replay(init: AccountState, rows: seq<TransactionRow>, env: Env): (r: Result<AccountState, Error>)
    ensures r.Success? ==> r.value.id == init.id && r.value.rate == init.rate && r.value.createdAt == init.createdAt
    ensures r.Failure? ==> ReplayError(r.error)
  {
    if rows == [] then Success(init)
    else
      match Replay(init, rows[..|rows| - 1], env)
      case Failure(e) => Failure(e)
      case Success(s) => ReplayRow(s, rows[|rows| - 1], |rows| - 1, env)
  }

  lemma {:induction false} ReplayFailurePersists(init: AccountState, rows: seq<TransactionRow>, k: nat, env: Env)
    requires k <= |rows| && Replay(init, rows[..k], env).Failure?
    ensures Replay(init, rows, env) == Replay(init, rows[..k], env)
    decreases |rows| - k
  {
    if k < |rows| {
      var next := rows[..k + 1];
      assert next[..k] == rows[..k];
      ReplayFailurePersists(init, rows, k + 1, env);
    } else {
      assert rows[..k] == rows;
    }
  }

  /**
   * Two rows at the same timestamp are in timestamp order either way round, and the order
   * decides the load: a deposit of 1.00 followed by a withdrawal of 0.50 replays, while the
   * reverse order throws "Insufficient funds".
   */
  lemma TieOrderMatters(env: Env)
    ensures var init := NewAccount(Some("acct-1"), None, 0).value;
            var d := TransactionRow("tx-1", "acct-1", TypeCode(Deposit), Money(100), 5, None);
            var w := TransactionRow("tx-2", "acct-1", TypeCode(Withdrawal), Money(50), 5, None);
            && SortedByTimestamp([d, w]) && SortedByTimestamp([w, d])
            && Replay(init, [d, w], env).Success? && Replay(init, [d, w], env).value.balance == Money(51)
            && Replay(init, [w, d], env) == Failure(InvalidOperation(InsufficientFunds))
  {
    var init := NewAccount(Some("acct-1"), None, 0).value;
    var d := TransactionRow("tx-1", "acct-1", TypeCode(Deposit), Money(100), 5, None);
    var w := TransactionRow("tx-2", "acct-1", TypeCode(Withdrawal), Money(50), 5, None);
    assert [d, w][..1] == [d] && [w, d][..1] == [w];
    assert [d][..0] == [] && [w][..0] == [];
    TypeCodeRoundTrip(Deposit);
    TypeCodeRoundTrip(Withdrawal);
    var s1 := DepositStep(init, Money(100), env.guid(0), env.clock(1), None);
    assert Replay(init, [d], env) == Success(s1);
    assert s1.balance == Money(101);
    WithdrawBelowBalance(s1, Money(50), env.guid(1), env.clock(2), None);
    assert Replay(init, [w], env) == Failure(InvalidOperation(InsufficientFunds));
  }

  /** The account `GetByIdAsync` rebuilds: only the stored rate and the rows are read. */
  function Load(db: Database, id: string, env: Env): (r: Result<Option<AccountState>, Error>)
    ensures r == Success(None) <==> id !in db.accounts
    ensures r.Success? && r.value.Some? ==>
      var a := r.value.value;
      a.id == id && a.rate == db.accounts[id].rate && a.createdAt == env.clock(0)
    ensures r.Failure? ==> ReplayError(r.error)
  {
    if id !in db.accounts then Success(None)
    else
      var init := NewAccount(Some(id), Some(db.accounts[id].rate), env.clock(0)).value;
      match Replay(init, SortByTimestamp(RowsOf(db.transactions, id)), env)
      case Failure(e) => Failure(e)
      case Success(s) => Success(Some(s))
  }

  /** The stored Balance, Version and CreatedAt columns never influence what is loaded. */
  lemma LoadIgnoresCachedColumns(db: Database, id: string, env: Env, balance: Money, createdAt: int, version: int)
    requires id in db.accounts
    ensures Load(db.(accounts := db.accounts[id := db.accounts[id].(balance := balance, createdAt := createdAt,
                                                                    version := version)]), id, env)
         == Load(db, id, env)
  {
  }

  /** An InterestAccrual row is replayed by accruing again: its stored amount is ignored. */
  lemma AccrualRowAmountIgnored(s: AccountState, row: TransactionRow, amount: Money, k: nat, env: Env)
    requires row.kind == TypeCode(InterestAccrual)
    ensures ReplayRow(s, row.(amount := amount), k, env) == ReplayRow(s, row, k, env)
  {
  }

  // ---------------------------------------------------------------- SaveAsync: the diff

  /** The (idempotency key, amount, type) triple a stored row and a log entry are matched by. */
  datatype CompositeKey = CompositeKey(idempotencyKey: string, cents: int, code: int)

  /** String interpolation renders a null key as the empty string. */
  function KeyText(key: Option<string>): string {
    key.GetOr("")
  }

  function RowKey(row: TransactionRow): CompositeKey {
    CompositeKey(KeyText(row.idempotencyKey), row.amount.cents, row.kind)
  }

  function TransactionKey(t: Transaction): CompositeKey {
    CompositeKey(KeyText(t.idempotencyKey), t.amount.cents, TypeCode(t.kind))
  }

  lemma RowKeyOfEntry(t: Transaction)
    ensures RowKey(ToRow(t)) == TransactionKey(t)
  {
  }

  /** `existingSet`: the keys of the given rows. */
  function KeySet(rows: seq<TransactionRow>): (keys: set<CompositeKey>)
    ensures forall k :: k in keys <==> exists i :: 0 <= i < |rows| && RowKey(rows[i]) == k
  {
    if rows == [] then {}
    else
      var init := rows[..|rows| - 1];
      var rest := KeySet(init);
      assert forall i :: 0 <= i < |init| ==> rows[i] == init[i];
      rest + {RowKey(rows[|rows| - 1])}
  }

  /** The log entries whose key matches no stored row, in log order. */
  function NewTransactions(log: seq<Transaction>, existing: set<CompositeKey>): (r: seq<Transaction>)
    ensures |r| <= |log|
    ensures forall t :: t in r <==> t in log && TransactionKey(t) !in existing
    ensures (forall i :: 0 <= i < |log| ==> TransactionKey(log[i]) !in existing) ==> r == log
    ensures (forall i :: 0 <= i < |log| ==> TransactionKey(log[i]) in existing) ==> r == []
  {
    if log == [] then []
    else
      var init := log[..|log| - 1];
      var last := log[|log| - 1];
      assert log == init + [last];
      var rest := NewTransactions(init, existing);
      if TransactionKey(last) in existing then rest else rest + [last]
  }

  /**
   * The filter keeps log order and multiplicity: one more log entry is added at the end
   * exactly when its key is new, so the count the version check uses is the filter's count.
   */
  lemma NewTransactionsAppend(log: seq<Transaction>, t: Transaction, existing: set<CompositeKey>)
    ensures NewTransactions(log + [t], existing)
         == NewTransactions(log, existing) + if TransactionKey(t) in existing then [] else [t]
  {
    var all := log + [t];
    assert all[..|all| - 1] == log && all[|all| - 1] == t;
  }

  /** Whether a row with this id is already in the table (the id column is the primary key). */
  predicate IdTaken(rows: seq<TransactionRow>, id: string) {
    exists i :: 0 <= i < |rows| && rows[i].id == id
  }

  /** Each inserted row's id is free when its turn comes. */
  predicate FreshIds(table: seq<TransactionRow>, newRows: seq<TransactionRow>) {
    forall i :: 0 <= i < |newRows| ==> !IdTaken(table + newRows[..i], newRows[i].id)
  }

  /** Inserting rows one by one; an id that is already taken violates the primary key. */
  function InsertRows(table: seq<TransactionRow>, newRows: seq<TransactionRow>): (r: Result<seq<TransactionRow>, Error>)
    ensures r.Success? ==> r.value == table + newRows
    ensures r.Failure? ==> r.error == Constraint(DuplicateTransactionId)
  {
    if newRows == [] then Success(table)
    else
      var init := newRows[..|newRows| - 1];
      var last := newRows[|newRows| - 1];
      assert newRows == init + [last];
      match InsertRows(table, init)
      case Failure(e) => Failure(e)
      case Success(t) => if IdTaken(t, last.id) then Failure(Constraint(DuplicateTransactionId)) else Success(t + [last])
  }

  /** The inserts all succeed exactly when every id is free when its turn comes. */
  lemma {:induction false} InsertRowsSucceedsIff(table: seq<TransactionRow>, newRows: seq<TransactionRow>)
    ensures InsertRows(table, newRows).Success? <==> FreshIds(table, newRows)
  {
    if newRows != [] {
      var init := newRows[..|newRows| - 1];
      InsertRowsSucceedsIff(table, init);
      assert forall i :: 0 <= i < |init| ==> init[..i] == newRows[..i];
    }
  }

  lemma InsertOneMore(table: seq<TransactionRow>, rows: seq<TransactionRow>, row: TransactionRow)
    requires InsertRows(table, rows).Success?
    ensures InsertRows(table, rows + [row])
         == if IdTaken(InsertRows(table, rows).value, row.id) then Failure(Constraint(DuplicateTransactionId))
            else Success(InsertRows(table, rows).value + [row])
  {
    assert (rows + [row])[..|rows|] == rows;
  }

  /** The entries of `a` that a save of `a` into `db` finds new. */
  function Added(db: Database, a: AccountState): seq<Transaction> {
    NewTransactions(a.log, KeySet(RowsOf(db.transactions, a.id)))
  }

  /**
   * The account table after a save that gets past the version check: the row inserted when
   * it was missing; otherwise, when there are new entries, its balance, rate and version set.
   */
  function AccountsAfterSave(accounts: map<string, AccountRow>, a: AccountState, newCount: nat): (r: map<string, AccountRow>)
    ensures r.Keys == accounts.Keys + {a.id}
    ensures forall id :: id in accounts && id != a.id ==> r[id] == accounts[id]
  {
    if a.id !in accounts then accounts[a.id := AccountRow(a.balance, a.rate, a.createdAt, a.version)]
    else if newCount == 0 then accounts
    else accounts[a.id := accounts[a.id].(balance := a.balance, rate := a.rate, version := a.version)]
  }

  /**
   * SaveAsync over the tables: insert the account row if missing; find the new entries;
   * with none, stop; otherwise, for an account that existed, compare-and-swap the version
   * against |log| + 1 - |new|, then insert the new rows. Every failure leaves the tables as
   * they were, which is why a failure carries no tables.
   */
  function SaveTables(db: Database, a: AccountState): (r: Result<Database, Error>)
    ensures r.Success? ==> a.id in r.value.accounts
    ensures r.Failure? ==> r.error == InvalidOperation(ConcurrentModification) || r.error == Constraint(DuplicateTransactionId)
  {
    var newTransactions := Added(db, a);
    var updated := AccountsAfterSave(db.accounts, a, |newTransactions|);
    if |newTransactions| == 0 then Success(Database(updated, db.transactions))
    else if a.id in db.accounts && db.accounts[a.id].version != |a.log| + 1 - |newTransactions| then
      Failure(InvalidOperation(ConcurrentModification))
    else
      match InsertRows(db.transactions, ToRows(newTransactions))
      case Failure(e) => Failure(e)
      case Success(rows) => Success(Database(updated, rows))
  }

  // ---------------------------------------------------------------- properties of a save

  /** With no new entries a save writes no transaction row and cannot conflict. */
  lemma NothingNewCannotConflict(db: Database, a: AccountState)
    requires |Added(db, a)| == 0
    ensures SaveTables(db, a).Success?
    ensures SaveTables(db, a).value.transactions == db.transactions
    ensures a.id in db.accounts ==> SaveTables(db, a).value == db
  {
  }

  /** A successful save appends exactly the new entries to the transaction table. */
  lemma SaveAppendsAdded(db: Database, a: AccountState)
    requires SaveTables(db, a).Success?
    ensures SaveTables(db, a).value.transactions == db.transactions + ToRows(Added(db, a))
  {
    if |Added(db, a)| == 0 {
      assert ToRows(Added(db, a)) == [];
      assert db.transactions + [] == db.transactions;
    }
  }

  /** A successful save leaves an account row for the saved id and no other account's row changes. */
  lemma SaveKeepsOtherAccounts(db: Database, a: AccountState)
    requires SaveTables(db, a).Success?
    ensures var db' := SaveTables(db, a).value;
      && db'.accounts.Keys == db.accounts.Keys + {a.id}
      && forall id :: id in db.accounts && id != a.id ==> db'.accounts[id] == db.accounts[id]
  {
    var db' := SaveTables(db, a).value;
    assert db'.accounts == AccountsAfterSave(db.accounts, a, |Added(db, a)|);
  }

  /**
   * What a successful save writes to the saved account's row: the row is inserted only when
   * it was missing, and is otherwise updated (after its version matched |log| + 1 - |new|)
   * only when there is something new.
   */
  lemma SaveWritesAccountRow(db: Database, a: AccountState)
    requires SaveTables(db, a).Success?
    ensures var db' := SaveTables(db, a).value;
      && (a.id !in db.accounts ==> db'.accounts[a.id] == AccountRow(a.balance, a.rate, a.createdAt, a.version))
      && (a.id in db.accounts && |Added(db, a)| == 0 ==> db'.accounts[a.id] == db.accounts[a.id])
      && (a.id in db.accounts && |Added(db, a)| > 0 ==>
            && db.accounts[a.id].version == |a.log| + 1 - |Added(db, a)|
            && db'.accounts[a.id] == db.accounts[a.id].(balance := a.balance, rate := a.rate, version := a.version))
  {
  }

  /** A save never breaks the rule that every row belongs to an account row. */
  lemma {:induction false} SavePreservesWellFormed(db: Database, a: AccountState)
    requires WellFormed(db) && OwnLog(a) && SaveTables(db, a).Success?
    ensures WellFormed(SaveTables(db, a).value)
  {
    var added := Added(db, a);
    SaveAppendsAdded(db, a);
    SaveKeepsOtherAccounts(db, a);
    var db' := SaveTables(db, a).value;
    forall i | 0 <= i < |db'.transactions|
      ensures db'.transactions[i].accountId in db'.accounts
    {
      if i >= |db.transactions| {
        var t := added[i - |db.transactions|];
        assert t in a.log;
      }
    }
  }

  // ---------------------------------------------------------------- two sessions, one account

  /** A loaded copy in step with the tables: every entry stored, the version column 1 + |log|. */
  predicate InStep(db: Database, loaded: AccountState) {
    && loaded.id in db.accounts
    && db.accounts[loaded.id].version == |loaded.log| + 1
    && forall i :: 0 <= i < |loaded.log| ==> TransactionKey(loaded.log[i]) in KeySet(RowsOf(db.transactions, loaded.id))
  }

  /** Storing one entry of the account adds exactly its key to the account's key set. */
  lemma KeysAfterInsert(rows: seq<TransactionRow>, id: string, e: Transaction)
    requires e.accountId == id
    ensures RowsOf(rows + [ToRow(e)], id) == RowsOf(rows, id) + [ToRow(e)]
    ensures KeySet(RowsOf(rows + [ToRow(e)], id)) == KeySet(RowsOf(rows, id)) + {TransactionKey(e)}
  {
    RowsOfAppend(rows, [ToRow(e)], id);
    var rs := RowsOf(rows, id);
    var rs' := rs + [ToRow(e)];
    assert rs'[|rs|] == ToRow(e);
    assert forall i :: 0 <= i < |rs| ==> rs'[i] == rs[i];
  }

  /** A copy in step with the tables plus one entry: at most that entry is new. */
  lemma NewAfterOneMore(db: Database, loaded: AccountState, e: Transaction, existing: set<CompositeKey>)
    requires InStep(db, loaded) && KeySet(RowsOf(db.transactions, loaded.id)) <= existing
    ensures NewTransactions(loaded.log + [e], existing) == if TransactionKey(e) in existing then [] else [e]
  {
    var log := loaded.log + [e];
    assert log[..|log| - 1] == loaded.log;
    assert NewTransactions(loaded.log, existing) == [];
  }

  /** The save of a copy in step with the tables plus one new entry succeeds and stores it. */
  lemma {:induction false} SaveOneMore(db: Database, loaded: AccountState, a: AccountState, e: Transaction)
    requires InStep(db, loaded) && a.id == loaded.id && a.log == loaded.log + [e]
    requires TransactionKey(e) !in KeySet(RowsOf(db.transactions, loaded.id))
    requires FreshIds(db.transactions, [ToRow(e)])
    ensures SaveTables(db, a).Success?
    ensures SaveTables(db, a).value.transactions == db.transactions + [ToRow(e)]
    ensures SaveTables(db, a).value.accounts == db.accounts[a.id := db.accounts[a.id].(balance := a.balance,
                                                      rate := a.rate, version := a.version)]
  {
    NewAfterOneMore(db, loaded, e, KeySet(RowsOf(db.transactions, loaded.id)));
    assert ToRows([e]) == [ToRow(e)];
    InsertRowsSucceedsIff(db.transactions, [ToRow(e)]);
  }

  /**
   * Two sessions load the same account, each appends one entry, and both save. When the
   * loaded copy was in step with the tables and the two entries differ in key, amount or
   * type, the first save succeeds and the second fails the version check.
   */
  lemma {:induction false} SecondSaveConflicts(db: Database, loaded: AccountState, first: AccountState,
                                               e1: Transaction, second: AccountState, e2: Transaction)
    requires InStep(db, loaded)
    requires first.id == loaded.id && first.log == loaded.log + [e1] && first.version == |first.log| + 1
    requires second.id == loaded.id && second.log == loaded.log + [e2]
    requires e1.accountId == loaded.id && FreshIds(db.transactions, [ToRow(e1)])
    requires TransactionKey(e1) !in KeySet(RowsOf(db.transactions, loaded.id))
    requires TransactionKey(e2) !in KeySet(RowsOf(db.transactions, loaded.id))
    requires TransactionKey(e1) != TransactionKey(e2)
    ensures SaveTables(db, first).Success?
    ensures SaveTables(SaveTables(db, first).value, second) == Failure(InvalidOperation(ConcurrentModification))
  {
    SaveOneMore(db, loaded, first, e1);
    var db' := SaveTables(db, first).value;
    KeysAfterInsert(db.transactions, loaded.id, e1);
    var existing' := KeySet(RowsOf(db'.transactions, loaded.id));
    NewAfterOneMore(db, loaded, e2, existing');
    assert TransactionKey(e2) !in existing';
    assert |NewTransactions(second.log, existing')| == 1;
    assert db'.accounts[loaded.id].version == |loaded.log| + 2;
  }

  /**
   * The same two sessions when the second entry has the first one's key, amount and type
   * (for instance two key-less deposits of the same amount): it is taken to be stored
   * already, so the second save succeeds and writes nothing; that deposit is lost.
   */
  lemma {:induction false} MatchingSecondSaveIsDropped(db: Database, loaded: AccountState, first: AccountState,
                                                       e1: Transaction, second: AccountState, e2: Transaction)
    requires InStep(db, loaded)
    requires first.id == loaded.id && first.log == loaded.log + [e1] && first.version == |first.log| + 1
    requires second.id == loaded.id && second.log == loaded.log + [e2]
    requires e1.accountId == loaded.id && FreshIds(db.transactions, [ToRow(e1)])
    requires TransactionKey(e1) !in KeySet(RowsOf(db.transactions, loaded.id))
    requires TransactionKey(e1) == TransactionKey(e2)
    ensures SaveTables(db, first).Success?
    ensures SaveTables(SaveTables(db, first).value, second) == Success(SaveTables(db, first).value)
  {
    SaveOneMore(db, loaded, first, e1);
    var db' := SaveTables(db, first).value;
    KeysAfterInsert(db.transactions, loaded.id, e1);
    NewAfterOneMore(db, loaded, e2, KeySet(RowsOf(db'.transactions, loaded.id)));
  }

  /**
   * A copy in step with the tables plus one entry whose key, amount and type match a stored
   * row: the save succeeds and writes nothing, so the entry is never stored.
   */
  lemma RepeatedEntryIsDropped(db: Database, loaded: AccountState, a: AccountState, e: Transaction)
    requires InStep(db, loaded) && a.id == loaded.id && a.log == loaded.log + [e]
    requires TransactionKey(e) in KeySet(RowsOf(db.transactions, loaded.id))
    ensures SaveTables(db, a) == Success(db)
  {
    NewAfterOneMore(db, loaded, e, KeySet(RowsOf(db.transactions, loaded.id)));
    NothingNewCannotConflict(db, a);
  }
}
