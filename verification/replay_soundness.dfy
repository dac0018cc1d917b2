/**
 * Why the durable store gives back the account it was given: replaying an account's entries
 * through its own commands rebuilds its balance, version and log, whatever ids and clock
 * readings the replay draws, as long as every command the account ran succeeded.
 */
module Rebuild {
  import opened Wrappers
  import opened Errors
  import opened Currency
  import opened Rates
  import opened Ledger
  import opened Accounts
  import opened Interest
  import opened SqliteTables

  /** What replaying an entry depends on: its type, amount and key, not its id or timestamp. */
  function Shape(t: Transaction): (TransactionType, Money, Option<string>) {
    (t.kind, t.amount, t.idempotencyKey)
  }

  predicate SameShapes(log: seq<Transaction>, log': seq<Transaction>) {
    |log| == |log'| && forall i :: 0 <= i < |log| ==> Shape(log[i]) == Shape(log'[i])
  }

  /** Two states that agree on everything a command reads or reports. */
  predicate Equiv(s: AccountState, s': AccountState) {
    && s.id == s'.id && s.balance == s'.balance && s.rate == s'.rate && s.version == s'.version
    && SameShapes(s.log, s'.log)
  }

  lemma EquivTransitive(s: AccountState, s': AccountState, s'': AccountState)
    requires Equiv(s, s') && Equiv(s', s'')
    ensures Equiv(s, s'')
  {
  }

  /** Two replay results that agree: the same error, or equivalent states. */
  predicate Agree(r: Result<AccountState, Error>, r': Result<AccountState, Error>) {
    || (r.Failure? && r'.Failure? && r.error == r'.error)
    || (r.Success? && r'.Success? && Equiv(r.value, r'.value))
  }

  lemma DuplicateAgrees(log: seq<Transaction>, log': seq<Transaction>, key: Option<string>)
    requires SameShapes(log, log')
    ensures HasDuplicateTransaction(log, key) == HasDuplicateTransaction(log', key)
  {
    if HasDuplicateTransaction(log, key) {
      var i :| 0 <= i < |log| && log[i].idempotencyKey == key;
      assert Shape(log[i]) == Shape(log'[i]);
    }
    if HasDuplicateTransaction(log', key) {
      var i :| 0 <= i < |log'| && log'[i].idempotencyKey == key;
      assert Shape(log[i]) == Shape(log'[i]);
    }
  }

  lemma SameShapesAppend(log: seq<Transaction>, log': seq<Transaction>, t: Transaction, t': Transaction)
    requires SameShapes(log, log') && Shape(t) == Shape(t')
    ensures SameShapes(log + [t], log' + [t'])
  {
    assert forall i :: 0 <= i < |log| ==> (log + [t])[i] == log[i] && (log' + [t'])[i] == log'[i];
  }

  /** A deposit on equivalent states, with any ids and clock readings, gives equivalent states. */
  lemma DepositAgrees(s: AccountState, s': AccountState, amount: Money, txId: string, now: int,
                      txId': string, now': int, key: Option<string>)
    requires Equiv(s, s')
    ensures Equiv(DepositStep(s, amount, txId, now, key), DepositStep(s', amount, txId', now', key))
  {
    DuplicateAgrees(s.log, s'.log, key);
    SameShapesAppend(s.log, s'.log, Entry(s, txId, Deposit, amount, now, key), Entry(s', txId', Deposit, amount, now', key));
  }

  /** The same for a withdrawal: the same outcome and equivalent states. */
  lemma WithdrawAgrees(s: AccountState, s': AccountState, amount: Money, txId: string, now: int,
                       txId': string, now': int, key: Option<string>)
    requires Equiv(s, s')
    ensures WithdrawStep(s, amount, txId, now, key).1 == WithdrawStep(s', amount, txId', now', key).1
    ensures Equiv(WithdrawStep(s, amount, txId, now, key).0, WithdrawStep(s', amount, txId', now', key).0)
  {
    DuplicateAgrees(s.log, s'.log, key);
    SameShapesAppend(s.log, s'.log, Entry(s, txId, Withdrawal, amount, now, key),
                     Entry(s', txId', Withdrawal, amount, now', key));
  }

  /** The same for an accrual: the same result and equivalent states. */
  lemma AccrueAgrees(s: AccountState, s': AccountState, txId: string, now: int, txId': string, now': int,
                     key: Option<string>)
    requires Equiv(s, s')
    ensures AccrueStep(s, txId, now, key).1 == AccrueStep(s', txId', now', key).1
    ensures Equiv(AccrueStep(s, txId, now, key).0, AccrueStep(s', txId', now', key).0)
  {
    DuplicateAgrees(s.log, s'.log, key);
    var earned := Sub(CompoundInterest(s.balance, s.rate).value, s.balance);
    if earned.Success? {
      SameShapesAppend(s.log, s'.log, Entry(s, txId, InterestAccrual, earned.value, now, key),
                       Entry(s', txId', InterestAccrual, earned.value, now', key));
    }
  }

  lemma ReplayRowAgrees(s: AccountState, s': AccountState, row: TransactionRow, k: nat, env: Env, env': Env)
    requires Equiv(s, s')
    ensures Agree(ReplayRow(s, row, k, env), ReplayRow(s', row, k, env'))
  {
    DepositAgrees(s, s', row.amount, env.guid(k), env.clock(k + 1), env'.guid(k), env'.clock(k + 1),
                  row.idempotencyKey);
    WithdrawAgrees(s, s', row.amount, env.guid(k), env.clock(k + 1), env'.guid(k), env'.clock(k + 1),
                   row.idempotencyKey);
    AccrueAgrees(s, s', env.guid(k), env.clock(k + 1), env'.guid(k), env'.clock(k + 1), row.idempotencyKey);
  }

  /** Replays from equivalent states agree, whatever ids and clock readings each draws. */
  lemma {:induction false} ReplayAgrees(init: AccountState, init': AccountState, rows: seq<TransactionRow>,
                                        env: Env, env': Env)
    requires Equiv(init, init')
    ensures Agree(Replay(init, rows, env), Replay(init', rows, env'))
  {
    if rows != [] {
      var prefix := rows[..|rows| - 1];
      ReplayAgrees(init, init', prefix, env, env');
      var r, r' := Replay(init, prefix, env), Replay(init', prefix, env');
      if r.Success? {
        ReplayRowAgrees(r.value, r'.value, rows[|rows| - 1], |rows| - 1, env, env');
      }
    }
  }

  /** Fixed ids and clock readings, to replay with when they do not matter. */
  const Canonical: Env := Env(k => "", k => 0)

  /** The state an account is rebuilt from: as constructed, with its id and rate. */
  function Initial(s: AccountState): AccountState {
    AccountState(s.id, Money(1), s.rate, s.createdAt, 1, [])
  }

  /** Replaying the account's own entries from its initial state rebuilds it. */
  predicate Sound(s: AccountState) {
    var r := Replay(Initial(s), ToRows(s.log), Canonical);
    r.Success? && Equiv(r.value, s)
  }

  lemma NewAccountIsSound(id: string, rate: Option<InterestRate>, now: int)
    ensures Sound(NewAccount(Some(id), rate, now).value)
  {
  }

  lemma ReplayOneMore(init: AccountState, rows: seq<TransactionRow>, row: TransactionRow, env: Env)
    requires Replay(init, rows, env).Success?
    ensures Replay(init, rows + [row], env) == ReplayRow(Replay(init, rows, env).value, row, |rows|, env)
  {
    assert (rows + [row])[..|rows|] == rows;
  }

  /**
   * An account stays rebuildable when one entry is appended, provided replaying that entry
   * on any state equivalent to the old account yields a state equivalent to the new one.
   */
  lemma SoundOneMore(s: AccountState, s': AccountState, e: Transaction)
    requires Sound(s) && s'.log == s.log + [e] && Initial(s') == Initial(s)
    requires forall r :: Equiv(r, s) ==> var next := ReplayRow(r, ToRow(e), |s.log|, Canonical);
                                        next.Success? && Equiv(next.value, s')
    ensures Sound(s')
  {
    ToRowsAppend(s.log, e);
    ReplayOneMore(Initial(s), ToRows(s.log), ToRow(e), Canonical);
  }

  /** A deposit keeps an account rebuildable from its log. */
  lemma DepositPreservesSoundness(s: AccountState, amount: Money, txId: string, now: int, key: Option<string>)
    requires Sound(s)
    ensures Sound(DepositStep(s, amount, txId, now, key))
  {
    if !HasDuplicateTransaction(s.log, key) {
      var d := Entry(s, txId, Deposit, amount, now, key);
      var s' := DepositStep(s, amount, txId, now, key);
      forall r | Equiv(r, s)
        ensures var next := ReplayRow(r, ToRow(d), |s.log|, Canonical); next.Success? && Equiv(next.value, s')
      {
        DepositAgrees(r, s, amount, "", 0, txId, now, key);
      }
      SoundOneMore(s, s', d);
    }
  }

  /** A withdrawal that passes keeps an account rebuildable from its log. */
  lemma WithdrawPreservesSoundness(s: AccountState, amount: Money, txId: string, now: int, key: Option<string>)
    requires Sound(s) && WithdrawStep(s, amount, txId, now, key).1.Pass?
    ensures Sound(WithdrawStep(s, amount, txId, now, key).0)
  {
    if !HasDuplicateTransaction(s.log, key) {
      var w := Entry(s, txId, Withdrawal, amount, now, key);
      var s' := WithdrawStep(s, amount, txId, now, key).0;
      forall r | Equiv(r, s)
        ensures var next := ReplayRow(r, ToRow(w), |s.log|, Canonical); next.Success? && Equiv(next.value, s')
      {
        WithdrawAgrees(r, s, amount, "", 0, txId, now, key);
      }
      SoundOneMore(s, s', w);
    }
  }

  /** An accrual that returns a value keeps an account rebuildable from its log. */
  lemma AccruePreservesSoundness(s: AccountState, txId: string, now: int, key: Option<string>)
    requires Sound(s) && AccrueStep(s, txId, now, key).1.Success?
    ensures Sound(AccrueStep(s, txId, now, key).0)
  {
    var s' := AccrueStep(s, txId, now, key).0;
    if s' != s {
      var earned := AccrueStep(s, txId, now, key).1.value;
      var a := Entry(s, txId, InterestAccrual, earned, now, key);
      assert s'.log == s.log + [a];
      forall r | Equiv(r, s)
        ensures var next := ReplayRow(r, ToRow(a), |s.log|, Canonical); next.Success? && Equiv(next.value, s')
      {
        AccrueAgrees(r, s, "", 0, txId, now, key);
      }
      SoundOneMore(s, s', a);
    }
  }

  /** Rows of accounts that exist are the only rows, so a new id has none. */
  lemma NoRowsForNewId(db: Database, id: string)
    requires WellFormed(db) && id !in db.accounts
    ensures RowsOf(db.transactions, id) == []
  {
  }

  /** The first save of an account inserts its row and all its entries. */
  lemma FirstSave(db: Database, a: AccountState)
    requires WellFormed(db) && a.id !in db.accounts && FreshIds(db.transactions, ToRows(a.log))
    ensures SaveTables(db, a)
         == Success(Database(db.accounts[a.id := AccountRow(a.balance, a.rate, a.createdAt, a.version)],
                             db.transactions + ToRows(a.log)))
  {
    NoRowsForNewId(db, a.id);
    assert NewTransactions(a.log, KeySet([])) == a.log;
    InsertRowsSucceedsIff(db.transactions, ToRows(a.log));
    if a.log == [] {
      assert db.transactions + ToRows(a.log) == db.transactions;
    }
  }

  /** After the first save the account's rows, in timestamp order, are its entries. */
  lemma RowsAfterFirstSave(db: Database, a: AccountState)
    requires WellFormed(db) && a.id !in db.accounts && OwnLog(a)
    requires SortedByTimestamp(ToRows(a.log)) && DistinctTimestamps(ToRows(a.log))
    ensures SortByTimestamp(RowsOf(db.transactions + ToRows(a.log), a.id)) == ToRows(a.log)
  {
    var rows := ToRows(a.log);
    NoRowsForNewId(db, a.id);
    RowsOfAppend(db.transactions, rows, a.id);
    RowsOfOwnRows(rows, a.id);
    assert RowsOf(db.transactions + rows, a.id) == rows;
    SortSortedIsIdentity(rows);
  }

  /** Rebuilding a sound account from its own rows, with any ids and clock readings, gives it back. */
  lemma ReplayOwnRows(a: AccountState, env: Env)
    requires Sound(a)
    ensures var replayed := Replay(NewAccount(Some(a.id), Some(a.rate), env.clock(0)).value, ToRows(a.log), env);
            replayed.Success? && Equiv(replayed.value, a)
  {
    var rows := ToRows(a.log);
    var init := NewAccount(Some(a.id), Some(a.rate), env.clock(0)).value;
    var replayed := Replay(init, rows, env);
    var expected := Replay(Initial(a), rows, Canonical);
    assert Agree(replayed, expected) by {
      ReplayAgrees(init, Initial(a), rows, env, Canonical);
    }
    EquivTransitive(replayed.value, expected.value, a);
  }

  /** Loading an account whose row was just inserted with all its entries replays them all. */
  lemma {:induction false} LoadAfterFirstSave(db: Database, a: AccountState, env: Env)
    requires WellFormed(db) && a.id !in db.accounts
    requires Sound(a) && OwnLog(a) && SortedByTimestamp(ToRows(a.log)) && DistinctTimestamps(ToRows(a.log))
    ensures var db' := Database(db.accounts[a.id := AccountRow(a.balance, a.rate, a.createdAt, a.version)],
                                db.transactions + ToRows(a.log));
            var loaded := Load(db', a.id, env);
            loaded.Success? && loaded.value.Some? && Equiv(loaded.value.value, a)
  {
    var db' := Database(db.accounts[a.id := AccountRow(a.balance, a.rate, a.createdAt, a.version)],
                        db.transactions + ToRows(a.log));
    RowsAfterFirstSave(db, a);
    ReplayOwnRows(a, env);
    var init := NewAccount(Some(a.id), Some(a.rate), env.clock(0)).value;
    assert Load(db', a.id, env) == Success(Some(Replay(init, ToRows(a.log), env).value));
  }

  /**
   * First save, then load: an account saved under a new id comes back with the same id, rate,
   * balance, version and entries (up to entry ids and timestamps), whatever ids and clock
   * readings the load draws. Its entries must be in strictly increasing timestamp order, so
   * that every order SQLite may return is this one, with ids not yet used.
   */
  lemma FirstSaveRoundTrip(db: Database, a: AccountState, env: Env)
    requires WellFormed(db) && a.id !in db.accounts
    requires Sound(a) && OwnLog(a)
    requires SortedByTimestamp(ToRows(a.log)) && DistinctTimestamps(ToRows(a.log))
    requires FreshIds(db.transactions, ToRows(a.log))
    ensures SaveTables(db, a).Success?
    ensures var loaded := Load(SaveTables(db, a).value, a.id, env);
            loaded.Success? && loaded.value.Some? && Equiv(loaded.value.value, a)
  {
    FirstSave(db, a);
    LoadAfterFirstSave(db, a, env);
  }

  /** A row no earlier than every other row sorts last. */
  lemma SortLatestLast(rows: seq<TransactionRow>, row: TransactionRow)
    requires forall i :: 0 <= i < |rows| ==> rows[i].timestamp <= row.timestamp
    ensures SortByTimestamp(rows + [row]) == SortByTimestamp(rows) + [row]
  {
    SortAppendInserts(rows, row);
    SortedLastNoLater(rows, row);
    InsertAfterLatest(SortByTimestamp(rows), row);
  }

  /** Sorting rows with one more at the end inserts it into the sorted rest. */
  lemma SortAppendInserts(rows: seq<TransactionRow>, row: TransactionRow)
    ensures SortByTimestamp(rows + [row]) == InsertByTimestamp(SortByTimestamp(rows), row)
  {
    var all := rows + [row];
    assert all[..|all| - 1] == rows && all[|all| - 1] == row;
  }

  /** A row no earlier than the last sorted one goes at the end. */
  lemma InsertAfterLatest(sorted: seq<TransactionRow>, row: TransactionRow)
    requires sorted == [] || sorted[|sorted| - 1].timestamp <= row.timestamp
    ensures InsertByTimestamp(sorted, row) == sorted + [row]
  {
  }

  /** Sorting rows no later than `row` ends with a row no later than `row`. */
  lemma SortedLastNoLater(rows: seq<TransactionRow>, row: TransactionRow)
    requires forall i :: 0 <= i < |rows| ==> rows[i].timestamp <= row.timestamp
    ensures var sorted := SortByTimestamp(rows); sorted == [] || sorted[|sorted| - 1].timestamp <= row.timestamp
  {
    var sorted := SortByTimestamp(rows);
    if sorted != [] {
      var last := sorted[|sorted| - 1];
      assert last in multiset(sorted);
      assert last in rows;
    }
  }

  /**
   * Load, append one entry, save, load again: the second load gives back the changed account
   * (up to entry ids and timestamps), whatever ids and clock readings it draws, when the
   * first load was in step with the tables, the entry matches no stored row, its id is
   * unused, it is later than the account's stored rows (which share no timestamp, so their
   * order is fixed), and replaying it on anything equivalent to the loaded account gives
   * something equivalent to the changed one.
   */
  lemma {:induction false} NextSaveRoundTrip(db: Database, loaded: AccountState, a: AccountState, e: Transaction,
                                             env: Env, env': Env)
    requires Load(db, loaded.id, env) == Success(Some(loaded)) && InStep(db, loaded)
    requires a.id == loaded.id && a.rate == loaded.rate && a.log == loaded.log + [e] && e.accountId == loaded.id
    requires TransactionKey(e) !in KeySet(RowsOf(db.transactions, loaded.id))
    requires FreshIds(db.transactions, [ToRow(e)])
    requires var rows := RowsOf(db.transactions, loaded.id);
             DistinctTimestamps(rows) && forall i :: 0 <= i < |rows| ==> rows[i].timestamp < e.timestamp
    requires forall r: AccountState, k: nat, g: Env :: Equiv(r, loaded) ==>
               ReplayRow(r, ToRow(e), k, g).Success? && Equiv(ReplayRow(r, ToRow(e), k, g).value, a)
    ensures SaveTables(db, a).Success?
    ensures var again := Load(SaveTables(db, a).value, a.id, env');
            again.Success? && again.value.Some? && Equiv(again.value.value, a)
  {
    SaveOneMore(db, loaded, a, e);
    var db' := SaveTables(db, a).value;
    RowsGainEntry(db.transactions, db'.transactions, loaded.id, e);
    LoadAppended(db, db', loaded, a, e, env, env');
  }

  /** The account's rows, in order, gain the appended entry at the end. */
  lemma RowsGainEntry(rows: seq<TransactionRow>, rows': seq<TransactionRow>, id: string, e: Transaction)
    requires rows' == rows + [ToRow(e)] && e.accountId == id
    requires var mine := RowsOf(rows, id); forall i :: 0 <= i < |mine| ==> mine[i].timestamp <= e.timestamp
    ensures SortByTimestamp(RowsOf(rows', id)) == SortByTimestamp(RowsOf(rows, id)) + [ToRow(e)]
  {
    KeysAfterInsert(rows, id, e);
    SortLatestLast(RowsOf(rows, id), ToRow(e));
  }

  /** The load step of the round trip, for tables that gained one row of the account. */
  lemma LoadAppended(db: Database, db': Database, loaded: AccountState, a: AccountState, e: Transaction,
                     env: Env, env': Env)
    requires Load(db, loaded.id, env) == Success(Some(loaded))
    requires loaded.id in db'.accounts && db'.accounts[loaded.id].rate == a.rate == loaded.rate
    requires SortByTimestamp(RowsOf(db'.transactions, loaded.id))
          == SortByTimestamp(RowsOf(db.transactions, loaded.id)) + [ToRow(e)]
    requires forall r: AccountState, k: nat, g: Env :: Equiv(r, loaded) ==>
               ReplayRow(r, ToRow(e), k, g).Success? && Equiv(ReplayRow(r, ToRow(e), k, g).value, a)
    ensures var again := Load(db', loaded.id, env');
            again.Success? && again.value.Some? && Equiv(again.value.value, a)
  {
    var id := loaded.id;
    var sorted := SortByTimestamp(RowsOf(db.transactions, id));
    var init := NewAccount(Some(id), Some(db.accounts[id].rate), env.clock(0)).value;
    assert Replay(init, sorted, env) == Success(loaded);
    var init' := NewAccount(Some(id), Some(db'.accounts[id].rate), env'.clock(0)).value;
    assert Equiv(init', init);
    ReplayAgrees(init', init, sorted, env', env);
    ReplayOneMore(init', sorted, ToRow(e), env');
  }

  /**
   * A deposit with a fresh key (or none) on a loaded account survives the save: loading again
   * gives the account with the deposit, as long as no stored row has the same key, amount
   * and type (a repeated key-less deposit of the same amount is dropped instead, see
   * `RepeatedKeylessDepositIsLost`).
   */
  lemma DepositSurvivesReload(db: Database, loaded: AccountState, amount: Money, txId: string, now: int,
                              key: Option<string>, env: Env, env': Env)
    requires Load(db, loaded.id, env) == Success(Some(loaded)) && InStep(db, loaded)
    requires !HasDuplicateTransaction(loaded.log, key)
    requires var e := Entry(loaded, txId, Deposit, amount, now, key);
             && TransactionKey(e) !in KeySet(RowsOf(db.transactions, loaded.id))
             && FreshIds(db.transactions, [ToRow(e)])
    requires var rows := RowsOf(db.transactions, loaded.id);
             DistinctTimestamps(rows) && forall i :: 0 <= i < |rows| ==> rows[i].timestamp < now
    ensures var a := DepositStep(loaded, amount, txId, now, key);
            && SaveTables(db, a).Success?
            && var again := Load(SaveTables(db, a).value, loaded.id, env');
               again.Success? && again.value.Some? && Equiv(again.value.value, a)
  {
    DepositRowReplays(loaded, amount, txId, now, key);
    NextSaveRoundTrip(db, loaded, DepositStep(loaded, amount, txId, now, key), Entry(loaded, txId, Deposit, amount, now, key), env, env');
  }

  /**
   * The row a deposit stores replays, on any state equivalent to the loaded one, to a
   * state equivalent to the account after the deposit.
   */
  lemma DepositRowReplays(loaded: AccountState, amount: Money, txId: string, now: int, key: Option<string>)
    requires !HasDuplicateTransaction(loaded.log, key)
    ensures var e := Entry(loaded, txId, Deposit, amount, now, key);
            var a := DepositStep(loaded, amount, txId, now, key);
            && a.id == loaded.id && a.rate == loaded.rate && a.log == loaded.log + [e]
            && e.accountId == loaded.id && e.timestamp == now
            && forall r: AccountState, k: nat, g: Env :: Equiv(r, loaded) ==>
                 ReplayRow(r, ToRow(e), k, g).Success? && Equiv(ReplayRow(r, ToRow(e), k, g).value, a)
  {
    var e := Entry(loaded, txId, Deposit, amount, now, key);
    var a := DepositStep(loaded, amount, txId, now, key);
    forall r: AccountState, k: nat, g: Env | Equiv(r, loaded)
      ensures ReplayRow(r, ToRow(e), k, g).Success? && Equiv(ReplayRow(r, ToRow(e), k, g).value, a)
    {
      DepositAgrees(r, loaded, amount, g.guid(k), g.clock(k + 1), txId, now, key);
    }
  }

  /** The same for a withdrawal that passes. */
  lemma WithdrawalSurvivesReload(db: Database, loaded: AccountState, amount: Money, txId: string, now: int,
                                 key: Option<string>, env: Env, env': Env)
    requires Load(db, loaded.id, env) == Success(Some(loaded)) && InStep(db, loaded)
    requires !HasDuplicateTransaction(loaded.log, key) && WithdrawStep(loaded, amount, txId, now, key).1.Pass?
    requires var e := Entry(loaded, txId, Withdrawal, amount, now, key);
             && TransactionKey(e) !in KeySet(RowsOf(db.transactions, loaded.id))
             && FreshIds(db.transactions, [ToRow(e)])
    requires var rows := RowsOf(db.transactions, loaded.id);
             DistinctTimestamps(rows) && forall i :: 0 <= i < |rows| ==> rows[i].timestamp < now
    ensures var a := WithdrawStep(loaded, amount, txId, now, key).0;
            && SaveTables(db, a).Success?
            && var again := Load(SaveTables(db, a).value, loaded.id, env');
               again.Success? && again.value.Some? && Equiv(again.value.value, a)
  {
    WithdrawalRowReplays(loaded, amount, txId, now, key);
    NextSaveRoundTrip(db, loaded, WithdrawStep(loaded, amount, txId, now, key).0, Entry(loaded, txId, Withdrawal, amount, now, key), env, env');
  }

  /**
   * The row a withdrawal stores replays, on any state equivalent to the loaded one, to a
   * state equivalent to the account after the withdrawal.
   */
  lemma WithdrawalRowReplays(loaded: AccountState, amount: Money, txId: string, now: int, key: Option<string>)
    requires !HasDuplicateTransaction(loaded.log, key) && WithdrawStep(loaded, amount, txId, now, key).1.Pass?
    ensures var e := Entry(loaded, txId, Withdrawal, amount, now, key);
            var a := WithdrawStep(loaded, amount, txId, now, key).0;
            && a.id == loaded.id && a.rate == loaded.rate && a.log == loaded.log + [e]
            && e.accountId == loaded.id && e.timestamp == now
            && forall r: AccountState, k: nat, g: Env :: Equiv(r, loaded) ==>
                 ReplayRow(r, ToRow(e), k, g).Success? && Equiv(ReplayRow(r, ToRow(e), k, g).value, a)
  {
    var e := Entry(loaded, txId, Withdrawal, amount, now, key);
    var a := WithdrawStep(loaded, amount, txId, now, key).0;
    forall r: AccountState, k: nat, g: Env | Equiv(r, loaded)
      ensures ReplayRow(r, ToRow(e), k, g).Success? && Equiv(ReplayRow(r, ToRow(e), k, g).value, a)
    {
      WithdrawAgrees(r, loaded, amount, g.guid(k), g.clock(k + 1), txId, now, key);
    }
  }

  /** The first half of the cycle below: a new account with one key-less deposit, saved and loaded. */
  lemma KeylessDepositSaved(env: Env)
    ensures var a1 := DepositStep(NewAccount(Some("acct-1"), None, 0).value, Money(100), "tx-1", 1);
            && a1.balance == Money(101) && |a1.log| == 1
            && SaveTables(Database(map[], []), a1)
               == Success(Database(map["acct-1" := AccountRow(a1.balance, a1.rate, a1.createdAt, a1.version)],
                                   [ToRow(a1.log[0])]))
            && var loaded := Load(SaveTables(Database(map[], []), a1).value, "acct-1", env);
               loaded.Success? && loaded.value.Some? && Equiv(loaded.value.value, a1)
  {
    var a1 := DepositStep(NewAccount(Some("acct-1"), None, 0).value, Money(100), "tx-1", 1);
    KeylessDepositAccount();
    FirstSave(Database(map[], []), a1);
    FirstSaveRoundTrip(Database(map[], []), a1, env);
  }

  /** The account of that cycle meets what a first save and load need. */
  lemma KeylessDepositAccount()
    ensures var a1 := DepositStep(NewAccount(Some("acct-1"), None, 0).value, Money(100), "tx-1", 1);
            && a1.balance == Money(101) && |a1.log| == 1 && ToRows(a1.log) == [ToRow(a1.log[0])]
            && Sound(a1) && OwnLog(a1) && SortedByTimestamp(ToRows(a1.log)) && DistinctTimestamps(ToRows(a1.log))
  {
    var a0 := NewAccount(Some("acct-1"), None, 0).value;
    NewAccountIsSound("acct-1", None, 0);
    DepositPreservesSoundness(a0, Money(100), "tx-1", 1, None);
    DepositFreshKey(a0, Money(100), "tx-1", 1, None);
    var a1 := DepositStep(a0, Money(100), "tx-1", 1);
    var e := Transaction("tx-1", "acct-1", Deposit, Money(100), 1, None);
    assert a1.log == [e];
    ToRowsAppend([], e);
    assert ToRows(a1.log) == [ToRow(e)];
  }

  /**
   * One session and no idempotency key: deposit 1.00 into a new account and save it, load it,
   * deposit 1.00 again and save. The second entry has the stored entry's key, amount and
   * type, so the save writes nothing, and the reload shows 1.01 where the saved account held
   * 2.01: the save-then-load round trip fails for such a repeated entry.
   */
  lemma {:induction false} RepeatedKeylessDepositIsLost(env: Env, env': Env)
    ensures var a1 := DepositStep(NewAccount(Some("acct-1"), None, 0).value, Money(100), "tx-1", 1);
            var db1 := SaveTables(Database(map[], []), a1);
            && db1.Success?
            && var loaded := Load(db1.value, "acct-1", env);
               && loaded.Success? && loaded.value.Some? && loaded.value.value.balance == Money(101)
               && var a2 := DepositStep(loaded.value.value, Money(100), "tx-2", 2);
                  && a2.balance == Money(201)
                  && SaveTables(db1.value, a2) == db1
                  && var again := Load(db1.value, "acct-1", env');
                     again.Success? && again.value.Some? && again.value.value.balance == Money(101)
  {
    var a1 := DepositStep(NewAccount(Some("acct-1"), None, 0).value, Money(100), "tx-1", 1);
    KeylessDepositSaved(env);
    KeylessDepositSaved(env');
    var db1 := SaveTables(Database(map[], []), a1).value;
    var e1 := a1.log[0];
    var loaded := Load(db1, "acct-1", env).value.value;
    assert Shape(loaded.log[0]) == Shape(e1);
    assert RowsOf(db1.transactions, "acct-1") == [ToRow(e1)];
    assert TransactionKey(loaded.log[0]) == RowKey(ToRow(e1));
    assert InStep(db1, loaded);
    var a2 := DepositStep(loaded, Money(100), "tx-2", 2);
    assert TransactionKey(a2.log[|loaded.log|]) == RowKey(ToRow(e1));
    RepeatedEntryIsDropped(db1, loaded, a2, a2.log[|loaded.log|]);
  }
}
