/**
 * The volatile repository: a dictionary from account id to the account object itself.
 * Saving stores the object under its id, replacing any earlier one (last writer wins);
 * loading hands back that same object, not a copy.
 */
module InMemoryStore {
  import opened Wrappers
  import opened Accounts

  class InMemorySavingsAccountRepository {
    var accounts: map<string, SavingsAccount>

    /** Every account is filed under its own id. */
    ghost predicate Valid()
      reads this
    {
      forall id :: id in accounts ==> accounts[id].id == id
    }

    constructor()
      ensures Valid() && accounts == map[]
    {
      accounts := map[];
    }

    /** `GetByIdAsync`: the stored object, or null for an unknown id. */
    method GetById(id: string) returns (account: SavingsAccount?)
      requires Valid()
      ensures account == null <==> id !in accounts
      ensures account != null ==> account == accounts[id] && account.id == id
    {
      if id in accounts {
        account := accounts[id];
      } else {
        account := null;
      }
    }

    /** `SaveAsync`: add or replace the entry for the account's id, and return the account. */
    method Save(account: SavingsAccount) returns (saved: SavingsAccount)
      requires Valid()
      modifies this
      ensures Valid()
      ensures accounts == old(accounts)[account.id := account]
      ensures saved == account
    {
      accounts := accounts[account.id := account];
      saved := account;
    }

    /** `ExistsAsync`. */
    method Exists(id: string) returns (found: bool)
      ensures found <==> id in accounts
    {
      found := id in accounts;
    }
  }

  /**
   * Saving an account and reading it back: it exists, the very same object is returned,
   * a later save under the same id wins, and no other id is touched.
   */
  method SaveThenLoad(repository: InMemorySavingsAccountRepository, first: SavingsAccount,
                      second: SavingsAccount, other: string)
    returns (found: bool, loaded: SavingsAccount?, reloaded: SavingsAccount?)
    requires repository.Valid() && first.id == second.id && other != first.id
    modifies repository
    ensures repository.Valid()
    ensures found && loaded == first && reloaded == second
    ensures other in repository.accounts <==> other in old(repository.accounts)
    ensures other in old(repository.accounts) ==> repository.accounts[other] == old(repository.accounts)[other]
  {
    var saved := repository.Save(first);
    found := repository.Exists(first.id);
    loaded := repository.GetById(first.id);
    saved := repository.Save(second);
    reloaded := repository.GetById(first.id);
  }
}
