/**
 * `ISavingsAccountRepository`: the three operations the service needs, dispatched to one of
 * the two implementations. Each call promises what the implementation it reaches promises.
 */
module Repositories {
  import opened Wrappers
  import opened Errors
  import opened Accounts
  import opened InMemoryStore
  import opened SqliteTables
  import opened DapperStore

  datatype Repository =
    | Volatile(memory: InMemorySavingsAccountRepository)
    | Durable(db: DapperSavingsAccountRepository)
  {
    ghost predicate Valid()
      reads if Volatile? then {memory} else {}
    {
      Volatile? ==> memory.Valid()
    }

    /** The objects a call may change: the dictionary and the accounts it holds, or the tables. */
    function Footprint(): set<object>
      reads if Volatile? then {memory} else {}
    {
      if Volatile? then {memory} + set a | a in memory.accounts.Values :: a as object else {db}
    }

    method Exists(id: string) returns (found: bool)
      ensures Volatile? ==> (found <==> id in memory.accounts)
      ensures Durable? ==> (found <==> id in db.Contents().accounts)
    {
      match this
      case Volatile(memory) => found := memory.Exists(id);
      case Durable(db) => found := db.Exists(id);
    }

    /**
     * The stored account: the very object held in memory, or a new object rebuilt from the
     * tables; `None` for an unknown id.
     */
    method GetById(id: string, env: Env) returns (r: Result<Option<SavingsAccount>, Error>)
      requires Valid()
      ensures Volatile? ==> r == Success(if id in memory.accounts then Some(memory.accounts[id]) else None)
      ensures Durable? && r.Failure? ==> Load(db.Contents(), id, env) == Failure(r.error)
      ensures Durable? && r.Success? && r.value.None? ==> Load(db.Contents(), id, env) == Success(None)
      ensures Durable? && r.Success? && r.value.Some? ==>
                fresh(r.value.value) && Load(db.Contents(), id, env) == Success(Some(r.value.value.State()))
    {
      match this
      case Volatile(memory) =>
        var account := memory.GetById(id);
        r := Success(if account == null then None else Some(account));
      case Durable(db) =>
        r := db.GetById(id, env);
    }

    method Save(account: SavingsAccount) returns (r: Result<SavingsAccount, Error>)
      requires Valid()
      modifies if Volatile? then {memory} else {db}
      ensures Valid()
      ensures Volatile? ==> r == Success(account) && memory.accounts == old(memory.accounts)[account.id := account]
      ensures Durable? ==> SaveTables(old(db.Contents()), account.State()) == if r.Success? then Success(db.Contents())
                                                                              else Failure(r.error)
      ensures Durable? && r.Success? ==> r.value == account
      ensures Durable? && r.Failure? ==> db.Contents() == old(db.Contents())
    {
      match this
      case Volatile(memory) =>
        var saved := memory.Save(account);
        r := Success(saved);
      case Durable(db) =>
        r := db.Save(account);
    }
  }
}
