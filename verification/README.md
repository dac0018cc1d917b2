# Savings accounts: a verified model of the domain and persistence core

This project models, in Dafny, the core of a savings-account service:

- the `Money`, `InterestRate` and `Transaction` value types;
- the `SavingsAccount` aggregate and its three commands, `Deposit`, `Withdraw` and
  `AccrueInterest`, with idempotency-key deduplication;
- the two implementations of `ISavingsAccountRepository`: the in-memory dictionary, and the
  SQLite/Dapper store that rebuilds an account by replaying its transaction rows and saves by
  diffing on (idempotency key, amount, type) with a compare-and-swap on the version column;
- `SavingsAccountService`, which loads an account, runs one command and saves it.

Layout, one module per file:

| file | module | models |
|---|---|---|
| `wrappers.dfy` | `Wrappers`, `Errors` | `Option` for null, `Result` for a call that throws; the exceptions and their messages |
| `money.dfy` | `Currency` | `Money` as a whole number of cents, at least 1 |
| `interest_rate.dfy` | `Rates` | `InterestRate` as a real in [0, 1] |
| `interest_calculator.dfy` | `Interest` | compound interest computed exactly |
| `transaction.dfy` | `Ledger` | `Transaction`, `TransactionType` and its integer code |
| `savings_account.dfy` | `Accounts` | the aggregate's state as a value, a step function per command, and the class `SavingsAccount` that performs the same steps in place |
| `in_memory_repository.dfy` | `InMemoryStore` | the dictionary of account objects |
| `sqlite_tables.dfy` | `SqliteTables` | the two tables, the replay behind `GetByIdAsync` (`Load`) and the diff, compare-and-swap and insert behind `SaveAsync` (`SaveTables`) |
| `replay_soundness.dfy` | `Rebuild` | why a save followed by a load gives the account back |
| `dapper_repository.dfy` | `DapperStore` | the durable repository as a class over the tables, with its loops |
| `repository.dfy` | `Repositories` | the repository interface, dispatching to one of the two stores |
| `service.dfy` | `Services` | the application service |

How the pieces fit:

- An account's fields form the datatype `AccountState`. `DepositStep`, `WithdrawStep` and
  `AccrueStep` say what each command does to that value, including what a command that throws
  leaves behind.
- Each method of the class `SavingsAccount` is proved to change the object's fields exactly as
  its step function says.
- The durable store's methods are proved equal to the functions `Load` and `SaveTables` over
  the tables.
- The service's methods are proved against the step functions together with those two
  functions.

`Guid.NewGuid()` and `DateTime.UtcNow` are parameters: a command takes the id and the clock
reading of the entry it may append. A load takes an `Env`, which holds the ids and clock
readings the replay draws.

Equality of transactions is modulo what a replay regenerates. A reload regenerates every
entry's id and timestamp, so the round-trip lemmas compare accounts with `Equiv`. `Equiv`
means the same id, rate, balance and version, and a log with the same entries in type,
amount and key.

In these places the code behaves in ways a reader might not expect; the model follows the code:

- The constructor accepts an empty id; only a null id throws.
- Accrual whose interest is below a cent throws from the subtraction. It does not return the
  amount.
- Withdrawing exactly the balance appends the entry and then throws, so a command can leave a
  partial change behind.
- The expected version is recomputed from `|log| + 1 - |new|`, not carried from the load.
- Two sessions whose new entries agree in key, amount and type do not conflict: the second
  entry is taken to be stored already and is dropped. This holds when the stored and the new
  entry's keys render to the same text; the model compares the triple (see the composite-key
  line under "## Left out").
- The same happens within one session: a second entry with no idempotency key and the same
  amount and type as a stored one is never written. So a key-less deposit of 1.00 made twice
  reloads with one deposit, and the save-then-load round trip fails for it. Again this holds
  when the two keys render to the same text, as the model assumes.
- Rounding is half-to-even, which is the default of `Math.Round`.

The model pins each of these down as a lemma (`WithdrawExactBalance`, `AccrueOutcomes`,
`MatchingSecondSaveIsDropped`, `RepeatedKeylessDepositIsLost`).

## Model

| member | source | states |
|---|---|---|
| Currency.RoundHalfEven | src/SavingsAccount.Domain/Money.cs:16 | the result is within 0.5 of the input, and on a tie it is even |
| Currency.RoundWholeNumber | src/SavingsAccount.Domain/Money.cs:16 | rounding leaves a whole number unchanged |
| Currency.FromDecimal | src/SavingsAccount.Domain/Money.cs:11-17 | succeeds iff the unrounded amount is at least 0.01 (otherwise the minimum-amount error); the stored amount is the input rounded half-to-even to cents, so within 0.005 of it |
| Currency.FromDecimalExact | src/SavingsAccount.Domain/Money.cs:11-17 | an amount with two decimals is stored exactly when at least one cent, and rejected otherwise |
| Currency.AmountInjective | src/SavingsAccount.Domain/Money.cs:45-47 | two Money values have equal `Amount` exactly when they are equal |
| Currency.Add | src/SavingsAccount.Domain/Money.cs:36 | `+` is exact in cents and never throws |
| Currency.Sub | src/SavingsAccount.Domain/Money.cs:37 | `-` succeeds iff the difference is at least one cent, and is then exact; otherwise the minimum-amount error |
| Currency.SubSelfFails | src/SavingsAccount.Domain/Money.cs:37 | `a - a` always throws |
| Currency.Mul | src/SavingsAccount.Domain/Money.cs:38 | `*` succeeds iff the exact product is at least one cent, and is then the product rounded half-to-even; its only error is the minimum-amount one |
| Currency.MulExample | src/SavingsAccount.Domain/Money.cs:38 | 10.00 × 1.5 = 15.00 |
| Currency.Greater | src/SavingsAccount.Domain/Money.cs:40 | `>` is `>` on `Amount` |
| Currency.Less | src/SavingsAccount.Domain/Money.cs:41 | `<` is `<` on `Amount` |
| Currency.GreaterOrEqual | src/SavingsAccount.Domain/Money.cs:42 | `>=` is `>=` on `Amount` |
| Currency.LessOrEqual | src/SavingsAccount.Domain/Money.cs:43 | `<=` is `<=` on `Amount` |
| Currency.Equal | src/SavingsAccount.Domain/Money.cs:45-50 | `Equals` and `==` are equality of `Amount`, which is equality of the values |
| Currency.NotEqual | src/SavingsAccount.Domain/Money.cs:51 | `!=` is inequality of `Amount`, which is inequality of the values |
| Currency.DigitsRoundTrip | src/SavingsAccount.Domain/Money.cs:48 | reading back the decimal digits a number is printed with gives the number |
| Currency.Parse | src/SavingsAccount.Domain/Money.cs:19-34 | succeeds iff the text is digits, a point and two digits worth at least one cent, giving that many cents; blank text gives the empty-amount error, other text off the pattern the malformed-amount error, and a matching text below one cent the minimum-amount error |
| Currency.ParseExamples | src/SavingsAccount.Domain/Money.cs:19-34 | "123.45" parses to 123.45; "123.4", "123", "123.456", "abc", "" and "0.00" are rejected |
| Currency.Format | src/SavingsAccount.Domain/Money.cs:48 | `ToString("F2")` always matches the pattern the string constructor accepts |
| Currency.FormatParseRoundTrip | src/SavingsAccount.Domain/Money.cs:48 | parsing what `ToString` prints gives the same Money back |
| Currency.FormatExample | src/SavingsAccount.Domain/Money.cs:48 | 123.45 prints as "123.45" |
| Rates.NewInterestRate | src/SavingsAccount.Domain/InterestRate.cs:7-16 | succeeds iff the value is in [0, 1], both bounds included, storing it unchanged; a negative value or one above 1 throws its own message |
| Rates.ToDecimal | src/SavingsAccount.Domain/InterestRate.cs:18 | the implicit conversion yields a value in [0, 1] |
| Rates.FromDecimal | src/SavingsAccount.Domain/InterestRate.cs:20 | the explicit conversion accepts exactly what the constructor accepts |
| Rates.ToFromDecimal | src/SavingsAccount.Domain/InterestRate.cs:18-20 | converting a rate to decimal and back gives the same rate |
| Rates.FromToDecimal | src/SavingsAccount.Domain/InterestRate.cs:18-20 | a decimal the explicit conversion accepts comes back unchanged |
| Rates.Equal | src/SavingsAccount.Domain/InterestRate.cs:22 | equality by `Value` is equality of rates |
| Rates.NotEqual | src/SavingsAccount.Domain/InterestRate.cs:32 | `!=` is the negation of `==`, and is inequality of `Value` |
| Interest.Compounded | src/SavingsAccount.Domain/InterestCalculator.cs:10-11 | the compounded amount is never below the principal, and equals it at a zero rate |
| Interest.CompoundInterest | src/SavingsAccount.Domain/InterestCalculator.cs:5-14 | throws iff the periods are not positive; otherwise the new balance is at least the principal, and equals it at a zero rate |
| Interest.CompoundInterestExample | src/SavingsAccount.Domain/InterestCalculator.cs:5-14 | 1000.00 at 4.2% compounded once gives 1042.00 |
| Ledger.TypeCode | src/SavingsAccount.Infrastructure/DapperSavingsAccountRepository.cs:192 | `Deposit`, `Withdrawal` and `InterestAccrual` are stored as 0, 1 and 2, their positions in the enum |
| Ledger.TypeFromCode | src/SavingsAccount.Infrastructure/DapperSavingsAccountRepository.cs:76 | the cast names a type iff the code is in 0..2, and then the type whose code it is |
| Ledger.TypeCodeRoundTrip | src/SavingsAccount.Infrastructure/DapperSavingsAccountRepository.cs:76 | the code written for a type reads back as that type |
| Ledger.NewTransaction | src/SavingsAccount.Domain/Transaction.cs:12-20 | a null id, then a null account id, throws; otherwise every field is stored as given and the timestamp is the clock reading |
| Accounts.AnyHasKey | src/SavingsAccount.Domain/SavingsAccount.cs:88 | true iff some entry carries the key |
| Accounts.HasDuplicateTransaction | src/SavingsAccount.Domain/SavingsAccount.cs:85-89 | true iff the key is non-null, non-empty and on some entry of any type |
| Accounts.NewAccount | src/SavingsAccount.Domain/SavingsAccount.cs:14-21 | a null id throws and an empty one does not; a new account has balance 0.01, version 1, an empty log and the given rate or 0.042; it satisfies the aggregate's invariants |
| Accounts.DepositStep | src/SavingsAccount.Domain/SavingsAccount.cs:23-38 | a deposit keeps id, rate and creation time; with a duplicate key the state is unchanged, otherwise one entry is appended, the amount added and the version bumped by one |
| Accounts.WithdrawStep | src/SavingsAccount.Domain/SavingsAccount.cs:40-58 | a withdrawal keeps id, rate and creation time and appends at most one entry; it passes iff the key is a duplicate or the amount is below the balance; when it throws, balance and version stay and the error is "Insufficient funds" or the minimum-amount error |
| Accounts.AccrueStep | src/SavingsAccount.Domain/SavingsAccount.cs:60-83 | an accrual keeps id, rate and creation time, appends at most one entry and never lowers the balance; when it throws nothing changes and the error is the minimum-amount one |
| Accounts.DuplicateKeyIsNoOp | src/SavingsAccount.Domain/SavingsAccount.cs:25-63 | with a non-empty key already in the log every command changes nothing; withdrawal does not throw; accrual returns 0.01 |
| Accounts.MissingKeyNeverDeduplicates | src/SavingsAccount.Domain/SavingsAccount.cs:85-89 | a null or empty key never deduplicates: a deposit always appends |
| Accounts.DepositFreshKey | src/SavingsAccount.Domain/SavingsAccount.cs:23-38 | a deposit with a fresh key appends exactly one Deposit entry, adds the amount and bumps the version by one |
| Accounts.DepositIdempotent | src/SavingsAccount.Domain/SavingsAccount.cs:23-38 | the same keyed deposit twice equals it once |
| Accounts.InsufficientFundsChangesNothing | src/SavingsAccount.Domain/SavingsAccount.cs:45-46 | balance below the amount throws "Insufficient funds" and changes nothing |
| Accounts.WithdrawBelowBalance | src/SavingsAccount.Domain/SavingsAccount.cs:40-58 | balance above the amount appends one Withdrawal entry, subtracts the amount and bumps the version |
| Accounts.WithdrawExactBalance | src/SavingsAccount.Domain/SavingsAccount.cs:45-57 | withdrawing exactly the balance throws after the entry was appended: the log grows, balance and version stay, and the invariant breaks |
| Accounts.AccrueOutcomes | src/SavingsAccount.Domain/SavingsAccount.cs:60-83 | interest below a cent throws, exactly a cent is returned unapplied, more is logged, applied and returned |
| Accounts.AccrueAtZeroRateThrows | src/SavingsAccount.Domain/SavingsAccount.cs:65-66 | at a zero rate a fresh accrual throws and changes nothing |
| Accounts.CommandsPreserveConsistency | src/SavingsAccount.Domain/SavingsAccount.cs:18-83 | after every command that does not throw, version = 1 + length of log and balance = 0.01 + deposits − withdrawals + accruals |
| Accounts.CommandsPreserveKeyUniqueness | src/SavingsAccount.Domain/SavingsAccount.cs:23-89 | no command, even one that throws, puts a second entry with the same non-empty key in the log, or an entry of another account |
| Accounts.CommandsOnlyAppend | src/SavingsAccount.Domain/SavingsAccount.cs:23-83 | the version never decreases and the log only grows at its end |
| Accounts.AccountScenario | src/SavingsAccount.Domain/SavingsAccount.cs:14-58 | create, deposit 100.00, withdraw 50.00, withdraw 100.00: balances 0.01, 100.01, 50.01, then "Insufficient funds" leaving 50.01 at version 3 |
| Accounts.SavingsAccount.constructor | src/SavingsAccount.Domain/SavingsAccount.cs:14-21 | the new object's fields are the state `NewAccount` gives |
| Accounts.SavingsAccount.Deposit | src/SavingsAccount.Domain/SavingsAccount.cs:23-38 | the fields change exactly as `DepositStep` says |
| Accounts.SavingsAccount.Withdraw | src/SavingsAccount.Domain/SavingsAccount.cs:40-58 | the fields and the outcome are as `WithdrawStep` says, including the entry left by a throwing exact-balance withdrawal |
| Accounts.SavingsAccount.AccrueInterest | src/SavingsAccount.Domain/SavingsAccount.cs:60-83 | the fields and the returned interest are as `AccrueStep` says |
| InMemoryStore.InMemorySavingsAccountRepository.constructor | src/SavingsAccount.Infrastructure/InMemorySavingsAccountRepository.cs:8 | the dictionary starts empty |
| InMemoryStore.InMemorySavingsAccountRepository.GetById | src/SavingsAccount.Infrastructure/InMemorySavingsAccountRepository.cs:10-14 | null iff the id is absent; otherwise the stored object itself |
| InMemoryStore.InMemorySavingsAccountRepository.Save | src/SavingsAccount.Infrastructure/InMemorySavingsAccountRepository.cs:16-20 | the account replaces any entry under its id, other ids unchanged; returns its argument |
| InMemoryStore.InMemorySavingsAccountRepository.Exists | src/SavingsAccount.Infrastructure/InMemorySavingsAccountRepository.cs:22-25 | true iff the id is present |
| InMemoryStore.SaveThenLoad | src/SavingsAccount.Infrastructure/InMemorySavingsAccountRepository.cs:10-25 | after a save the id exists and loads the same object; a later save under the id wins; other ids are untouched |
| SqliteTables.ToRows | src/SavingsAccount.Infrastructure/DapperSavingsAccountRepository.cs:186-197 | one row per entry, in order, carrying the entry's fields and its type code |
| SqliteTables.RowsOf | src/SavingsAccount.Infrastructure/DapperSavingsAccountRepository.cs:58-62 | `WHERE AccountId = @Id` keeps exactly the account's rows, and none when the account has none |
| SqliteTables.RowsOfOwnRows | src/SavingsAccount.Infrastructure/DapperSavingsAccountRepository.cs:58-62 | rows that all belong to the account are all selected, in their order |
| SqliteTables.RowsOfAppend | src/SavingsAccount.Infrastructure/DapperSavingsAccountRepository.cs:58-62 | selecting from appended rows appends the selections |
| SqliteTables.InsertByTimestamp | src/SavingsAccount.Infrastructure/DapperSavingsAccountRepository.cs:62 | inserting a row adds exactly that row |
| SqliteTables.InsertKeepsSorted | src/SavingsAccount.Infrastructure/DapperSavingsAccountRepository.cs:62 | inserting into rows sorted by timestamp keeps them sorted |
| SqliteTables.TieOrderMatters | src/SavingsAccount.Infrastructure/DapperSavingsAccountRepository.cs:62 | with two rows at the same timestamp both orders are sorted by timestamp, and the order decides the load: deposit then withdrawal replays, the reverse throws "Insufficient funds" |
| SqliteTables.SortByTimestamp | src/SavingsAccount.Infrastructure/DapperSavingsAccountRepository.cs:62 | `ORDER BY Timestamp` gives a permutation of the rows sorted by timestamp |
| SqliteTables.SortSortedIsIdentity | src/SavingsAccount.Infrastructure/DapperSavingsAccountRepository.cs:62 | rows already in timestamp order keep their order |
| SqliteTables.ReplayRow | src/SavingsAccount.Infrastructure/DapperSavingsAccountRepository.cs:76-90 | a row with an unknown type code is skipped; otherwise the command keeps id, rate and creation time and appends at most one entry, and its only errors are "Insufficient funds" and the minimum-amount error |
| SqliteTables.Replay | src/SavingsAccount.Infrastructure/DapperSavingsAccountRepository.cs:73-91 | replaying rows never changes the account's id, rate or creation time, and fails only with an error a command can raise |
| SqliteTables.Load | src/SavingsAccount.Infrastructure/DapperSavingsAccountRepository.cs:42-94 | null iff there is no account row; otherwise an account with that id, the stored rate and the clock's first reading as creation time, or an error a replayed command raised |
| SqliteTables.SaveTables | src/SavingsAccount.Infrastructure/DapperSavingsAccountRepository.cs:96-208 | a successful save leaves a row for the account; its only errors are the version conflict and a duplicate transaction id |
| SqliteTables.ReplayFailurePersists | src/SavingsAccount.Infrastructure/DapperSavingsAccountRepository.cs:73-91 | once a replayed command throws, the whole load throws with that error |
| SqliteTables.LoadIgnoresCachedColumns | src/SavingsAccount.Infrastructure/DapperSavingsAccountRepository.cs:53-70 | the stored balance, version and creation time never influence a load |
| SqliteTables.AccrualRowAmountIgnored | src/SavingsAccount.Infrastructure/DapperSavingsAccountRepository.cs:87-88 | an accrual row is replayed by accruing again; its stored amount is ignored |
| SqliteTables.RowKeyOfEntry | src/SavingsAccount.Infrastructure/DapperSavingsAccountRepository.cs:142-148 | a stored entry and the entry it came from have the same composite key |
| SqliteTables.KeySet | src/SavingsAccount.Infrastructure/DapperSavingsAccountRepository.cs:139-144 | `existingSet` holds exactly the keys of the stored rows |
| SqliteTables.NewTransactions | src/SavingsAccount.Infrastructure/DapperSavingsAccountRepository.cs:146-150 | an entry is kept iff its key matches no stored row: all of them when none match, none when all do |
| SqliteTables.NewTransactionsAppend | src/SavingsAccount.Infrastructure/DapperSavingsAccountRepository.cs:146-150 | the filter keeps log order and count: one more log entry is appended to the result exactly when its key is new |
| SqliteTables.InsertRows | src/SavingsAccount.Infrastructure/DapperSavingsAccountRepository.cs:182-197 | inserting appends the rows, or fails on the primary key of the id |
| SqliteTables.InsertRowsSucceedsIff | src/SavingsAccount.Infrastructure/DapperSavingsAccountRepository.cs:182-197 | the inserts succeed iff every id is free when its turn comes |
| SqliteTables.AccountsAfterSave | src/SavingsAccount.Infrastructure/DapperSavingsAccountRepository.cs:108-178 | a save gets an account row for the saved id and changes no other account's row |
| SqliteTables.NothingNewCannotConflict | src/SavingsAccount.Infrastructure/DapperSavingsAccountRepository.cs:153 | with no new entries a save succeeds, inserts no transaction row and, for an existing account, changes nothing |
| SqliteTables.SaveAppendsAdded | src/SavingsAccount.Infrastructure/DapperSavingsAccountRepository.cs:146-197 | a successful save appends exactly the new entries to the transaction table |
| SqliteTables.SaveKeepsOtherAccounts | src/SavingsAccount.Infrastructure/DapperSavingsAccountRepository.cs:108-178 | after a successful save the saved id has a row and no other account's row changed |
| SqliteTables.SaveWritesAccountRow | src/SavingsAccount.Infrastructure/DapperSavingsAccountRepository.cs:108-178 | the row is inserted when missing; otherwise updated only with new entries, after its version matched 1 + length of log − number of new entries |
| SqliteTables.SavePreservesWellFormed | src/SavingsAccount.Infrastructure/DapperSavingsAccountRepository.cs:96-208 | a save never leaves a transaction row without its account row |
| SqliteTables.KeysAfterInsert | src/SavingsAccount.Infrastructure/DapperSavingsAccountRepository.cs:139-144 | storing an entry adds exactly its key to the account's keys |
| SqliteTables.NewAfterOneMore | src/SavingsAccount.Infrastructure/DapperSavingsAccountRepository.cs:146-150 | for a copy in step with the tables plus one entry, only that entry can be new |
| SqliteTables.SaveOneMore | src/SavingsAccount.Infrastructure/DapperSavingsAccountRepository.cs:153-197 | such a save succeeds, appends that entry's row and writes balance, rate and version |
| SqliteTables.SecondSaveConflicts | src/SavingsAccount.Infrastructure/DapperSavingsAccountRepository.cs:159-178 | two sessions load, each appends a different entry, both save: the first succeeds, the second fails the version check |
| SqliteTables.RepeatedEntryIsDropped | src/SavingsAccount.Infrastructure/DapperSavingsAccountRepository.cs:139-153 | a copy in step with the tables plus one entry whose key, amount and type match a stored row: the save succeeds and leaves the tables unchanged |
| SqliteTables.MatchingSecondSaveIsDropped | src/SavingsAccount.Infrastructure/DapperSavingsAccountRepository.cs:139-153 | when the second entry matches the first in key, amount and type, the second save succeeds and writes nothing |
| Rebuild.DuplicateAgrees | src/SavingsAccount.Domain/SavingsAccount.cs:85-89 | deduplication depends on the entries' keys only, not their ids or timestamps |
| Rebuild.DepositAgrees | src/SavingsAccount.Domain/SavingsAccount.cs:23-38 | a deposit on equivalent accounts, with any id and clock reading, gives equivalent accounts |
| Rebuild.WithdrawAgrees | src/SavingsAccount.Domain/SavingsAccount.cs:40-58 | the same for a withdrawal, with the same outcome |
| Rebuild.AccrueAgrees | src/SavingsAccount.Domain/SavingsAccount.cs:60-83 | the same for an accrual, with the same result |
| Rebuild.ReplayRowAgrees | src/SavingsAccount.Infrastructure/DapperSavingsAccountRepository.cs:79-90 | replaying a row on equivalent accounts gives the same error or equivalent accounts |
| Rebuild.ReplayAgrees | src/SavingsAccount.Infrastructure/DapperSavingsAccountRepository.cs:73-91 | replays from equivalent accounts agree, whatever ids and clock readings each draws |
| Rebuild.NewAccountIsSound | src/SavingsAccount.Domain/SavingsAccount.cs:14-21 | a new account is rebuilt by replaying its (empty) log |
| Rebuild.SoundOneMore | src/SavingsAccount.Infrastructure/DapperSavingsAccountRepository.cs:73-91 | appending an entry whose replay reproduces the change keeps an account rebuildable from its log |
| Rebuild.DepositPreservesSoundness | src/SavingsAccount.Infrastructure/DapperSavingsAccountRepository.cs:81-82 | a deposit keeps an account rebuildable from its log |
| Rebuild.WithdrawPreservesSoundness | src/SavingsAccount.Infrastructure/DapperSavingsAccountRepository.cs:84-85 | a withdrawal that does not throw keeps it rebuildable |
| Rebuild.AccruePreservesSoundness | src/SavingsAccount.Infrastructure/DapperSavingsAccountRepository.cs:87-88 | an accrual that does not throw keeps it rebuildable |
| Rebuild.FirstSave | src/SavingsAccount.Infrastructure/DapperSavingsAccountRepository.cs:96-208 | the first save of an account inserts its row and all its entries |
| Rebuild.RowsAfterFirstSave | src/SavingsAccount.Infrastructure/DapperSavingsAccountRepository.cs:58-62 | after it, the account's rows in timestamp order are its entries, when their timestamps strictly increase |
| Rebuild.ReplayOwnRows | src/SavingsAccount.Infrastructure/DapperSavingsAccountRepository.cs:68-91 | a new account with a sound account's id and rate, replaying that account's own rows, rebuilds an account equivalent to it whatever ids and clock readings it draws |
| Rebuild.LoadAfterFirstSave | src/SavingsAccount.Infrastructure/DapperSavingsAccountRepository.cs:42-94 | loading those tables gives back an account equivalent to the saved one, when its entries' timestamps strictly increase |
| Rebuild.FirstSaveRoundTrip | src/SavingsAccount.Infrastructure/DapperSavingsAccountRepository.cs:42-208 | save a new account whose entries have strictly increasing timestamps, then load it: same id, rate, balance, version and entries up to ids and timestamps |
| Rebuild.SortLatestLast | src/SavingsAccount.Infrastructure/DapperSavingsAccountRepository.cs:62 | a row no older than all others sorts last |
| Rebuild.NextSaveRoundTrip | src/SavingsAccount.Infrastructure/DapperSavingsAccountRepository.cs:42-208 | load, append one new entry later than the stored rows (which share no timestamp), save, load again: the account comes back, whatever the second load draws |
| Rebuild.RowsGainEntry | src/SavingsAccount.Infrastructure/DapperSavingsAccountRepository.cs:58-62 | after storing one newest entry, the account's sorted rows gain it at the end |
| Rebuild.LoadAppended | src/SavingsAccount.Infrastructure/DapperSavingsAccountRepository.cs:42-94 | loading the tables with that row appended gives the changed account |
| Rebuild.DepositSurvivesReload | src/SavingsAccount.Infrastructure/DapperSavingsAccountRepository.cs:42-208 | a deposit on a loaded account, whose (key, amount, type) is not yet stored and whose time is later than the stored rows, is saved and comes back on reload |
| Rebuild.DepositRowReplays | src/SavingsAccount.Infrastructure/DapperSavingsAccountRepository.cs:81-82 | the stored deposit row replays to the deposit on any equivalent account |
| Rebuild.RepeatedKeylessDepositIsLost | src/SavingsAccount.Infrastructure/DapperSavingsAccountRepository.cs:42-208 | save a new account with a key-less deposit of 1.00, load it, deposit 1.00 again, save: the save writes nothing and the reload shows 1.01 where the saved account held 2.01 |
| Rebuild.WithdrawalSurvivesReload | src/SavingsAccount.Infrastructure/DapperSavingsAccountRepository.cs:42-208 | the same for a withdrawal that does not throw |
| Rebuild.WithdrawalRowReplays | src/SavingsAccount.Infrastructure/DapperSavingsAccountRepository.cs:84-85 | the stored withdrawal row replays to the withdrawal on any equivalent account |
| DapperStore.DapperSavingsAccountRepository.constructor | src/SavingsAccount.Infrastructure/DapperSavingsAccountRepository.cs:16-31 | the repository is connected to the given tables |
| DapperStore.DapperSavingsAccountRepository.Open | src/SavingsAccount.Infrastructure/DapperSavingsAccountRepository.cs:12-18 | a null connection string throws `ArgumentNullException`; otherwise a repository over the tables |
| DapperStore.DapperSavingsAccountRepository.Exists | src/SavingsAccount.Infrastructure/DapperSavingsAccountRepository.cs:210-219 | true iff the account row exists |
| DapperStore.DapperSavingsAccountRepository.GetById | src/SavingsAccount.Infrastructure/DapperSavingsAccountRepository.cs:42-94 | null for an unknown id; otherwise a new object whose fields are what `Load` rebuilds, or the error of the replayed command that threw |
| DapperStore.DapperSavingsAccountRepository.Save | src/SavingsAccount.Infrastructure/DapperSavingsAccountRepository.cs:96-208 | the tables become what `SaveTables` computes and the account is returned, or the error is raised and every write is rolled back |
| DapperStore.DapperSavingsAccountRepository.ReplayRows | src/SavingsAccount.Infrastructure/DapperSavingsAccountRepository.cs:73-91 | the replay loop leaves the object in the state `Replay` computes, or returns the error `Replay` fails with |
| DapperStore.DapperSavingsAccountRepository.ApplyRow | src/SavingsAccount.Infrastructure/DapperSavingsAccountRepository.cs:76-90 | one pass of the loop changes the object as `ReplayRow` says, or returns its error |
| DapperStore.DapperSavingsAccountRepository.WriteNewEntries | src/SavingsAccount.Infrastructure/DapperSavingsAccountRepository.cs:153-198 | with new entries: the tables become what `SaveTables` computes, or both are rolled back and the version-conflict or duplicate-id error is returned |
| DapperStore.DapperSavingsAccountRepository.InsertAll | src/SavingsAccount.Infrastructure/DapperSavingsAccountRepository.cs:181-197 | the insert loop succeeds iff `InsertRows` does, leaving its result |
| DapperStore.CollectKeys | src/SavingsAccount.Infrastructure/DapperSavingsAccountRepository.cs:139-144 | the loop builds exactly the set of the rows' keys |
| DapperStore.InsertFailurePersists | src/SavingsAccount.Infrastructure/DapperSavingsAccountRepository.cs:186-207 | once an insert fails, the whole insert fails |
| Repositories.Repository.Exists | src/SavingsAccount.Domain/ISavingsAccountRepository.cs:7 | whether the store it reaches holds the id |
| Repositories.Repository.GetById | src/SavingsAccount.Domain/ISavingsAccountRepository.cs:5 | the stored object itself, or a new object rebuilt by `Load` |
| Repositories.Repository.Save | src/SavingsAccount.Domain/ISavingsAccountRepository.cs:6 | last writer wins in memory; `SaveTables` with rollback in the durable store |
| Services.SavingsAccountService.constructor | src/SavingsAccount.Application/Services/SavingsAccountService.cs:5-7 | the service uses the given repository |
| Services.SavingsAccountService.Open | src/SavingsAccount.Application/Services/SavingsAccountService.cs:5-7 | a null repository throws `ArgumentNullException` |
| Services.SavingsAccountService.CreateAccount | src/SavingsAccount.Application/Services/SavingsAccountService.cs:9-16 | an existing id throws "already exists" and nothing is saved; then an invalid rate throws; otherwise the new account is saved, and in memory every account stored before keeps its state |
| Services.SavingsAccountService.GetAccount | src/SavingsAccount.Application/Services/SavingsAccountService.cs:46-60 | the loaded account, or "not found" for an unknown id |
| Services.SavingsAccountService.GetBalance | src/SavingsAccount.Application/Services/SavingsAccountService.cs:40-44 | the loaded balance, or "not found"; nothing is saved |
| Services.SavingsAccountService.Deposit | src/SavingsAccount.Application/Services/SavingsAccountService.cs:18-23 | "not found" without a save, or exactly one `DepositStep` followed by a save that returns the saved account |
| Services.SavingsAccountService.Withdraw | src/SavingsAccount.Application/Services/SavingsAccountService.cs:25-30 | as for deposit; a withdrawal that throws is not saved (in memory the stored object still keeps what the command did) |
| Services.SavingsAccountService.AccrueInterest | src/SavingsAccount.Application/Services/SavingsAccountService.cs:32-38 | as for deposit; returns the saved account paired with what `AccrueInterest` returned |

## Left out

- Floating point in `CalculateCompoundInterest`: `double` and `Math.Pow` are replaced by exact real arithmetic with half-to-even rounding to cents. The model therefore does not reproduce binary rounding error.
- `decimal` precision and range: amounts are unbounded cents and exact reals, so 28-digit precision and `OverflowException` are not modelled. This includes the overflow branch of `decimal.TryParse` in the string constructor.
- The `long` version counter is an unbounded integer, so overflow is not modelled.
- Culture-specific text: `InterestRate.ToString` ("P2") is not modelled. `Money.ToString` ("F2") uses a point as the separator.
- .NET regex details: `\d` accepts only ASCII digits, and `$` does not match before a trailing newline. White space for `IsNullOrWhiteSpace` is ASCII only.
- A null string passed to `Money(string)` is not modelled, because strings here are never null. The empty and blank strings are modelled.
- A null `accountId` passed to the service is not modelled.
- Schema loading and database initialisation (`DapperSavingsAccountRepository.cs:20-40`) are not modelled. The repository starts from given tables.
- Connections, SQL text and Dapper are replaced by the two tables as values held in the object's fields.
- The composite key is compared as the triple (key, cents, type code), not as rendered text. A null key is the empty text, as interpolation renders it. How SQLite renders a stored DECIMAL is not modelled: the stored side is `existing.Amount` as read back from the `Amount` column (`DapperSavingsAccountRepository.cs:142`), the new side is `t.Amount.Amount` (`DapperSavingsAccountRepository.cs:148`), and the model takes the two to render alike whenever the cents agree. In C# a decimal's text depends on its scale ("1" for `1m`, "1.00" for `1.00m`), so two amounts with the same cents can render differently.
- SQLite's order for rows with equal timestamps is open. The model uses a stable sort, which is one admissible order. A tie can change what a load gives, as `TieOrderMatters` shows. So the round-trip lemmas (`RowsAfterFirstSave`, `LoadAfterFirstSave`, `FirstSaveRoundTrip`, `NextSaveRoundTrip`, `DepositSurvivesReload`, `WithdrawalSurvivesReload`) require the account's rows to have distinct timestamps. Under that condition every admissible order is the modelled one, and nothing is claimed for ties.
- Async, `Task`, `ConcurrentDictionary` thread safety and real concurrency are not modelled. Two sessions are modelled as a sequential interleaving of loads and saves.
- `Guid.NewGuid()` and `DateTime.UtcNow` are parameters: a txId and a clock reading per command, and an `Env` per load.
- The `TransactionType` enum source file is not part of this model. Its codes are taken to be 0, 1 and 2 in declaration order.
- Rebuild.NextSaveRoundTrip: the save-then-load round trip is proved for a first save of an account with all its entries. For later saves it is proved for one appended deposit or withdrawal whose (key, amount, type) is not yet stored. A general sequence of commands between saves is not covered. Where the entry's (key, amount, type) is already stored, and the stored and new keys render to the same text (the model compares the triple, see the composite-key line), the round trip does not hold in the code itself (`RepeatedKeylessDepositIsLost`).
- Repositories.Repository.GetById: the durable branch promises only what `DapperSavingsAccountRepository.GetById` promises (a result equal to `Load`). The interface itself promises nothing more.
- HTTP controllers, DTOs and application wiring are not modelled.
