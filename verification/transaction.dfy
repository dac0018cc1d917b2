/** Transaction: an immutable entry in an account's log. */
module Ledger {
  import opened Wrappers
  import opened Errors
  import opened Currency

  datatype TransactionType = Deposit | Withdrawal | InterestAccrual

  /** The integer code a type is stored as: its position in the enum declaration. */
  function TypeCode(t: TransactionType): (code: int)
    ensures code == 0 <==> t == Deposit
    ensures code == 1 <==> t == Withdrawal
    ensures code == 2 <==> t == InterestAccrual
  {
    match t
    case Deposit => 0
    case Withdrawal => 1
    case InterestAccrual => 2
  }

  /** The cast from a stored integer back to the enum; codes outside 0..2 name no member. */
  function TypeFromCode(code: int): (t: Option<TransactionType>)
    ensures t.Some? <==> 0 <= code <= 2
    ensures t.Some? ==> TypeCode(t.value) == code
  {
    if code == 0 then Some(Deposit)
    else if code == 1 then Some(Withdrawal)
    else if code == 2 then Some(InterestAccrual)
    else None
  }

  lemma TypeCodeRoundTrip(t: TransactionType)
    ensures TypeFromCode(TypeCode(t)) == Some(t)
  {
  }

  /**
   * Every field is get-only and set once, so a datatype value: it can never change.
   * `timestamp` is the reading of the clock when the entry was made.
   */
  datatype Transaction = Transaction(
    id: string,
    accountId: string,
    kind: TransactionType,
    amount: Money,
    timestamp: int,
    idempotencyKey: Option<string>)

  /**
   * The constructor: a null id or account id throws; everything else is stored as given,
   * the key defaulting to null and the timestamp taken from the clock.
   */
  function NewTransaction(id: Option<string>, accountId: Option<string>, kind: TransactionType,
                          amount: Money, now: int, idempotencyKey: Option<string> := None)
    : (r: Result<Transaction, Error>)
    ensures r.Success? <==> id.Some? && accountId.Some?
    ensures id.None? ==> r == Failure(ArgumentNull("id"))
    ensures id.Some? && accountId.None? ==> r == Failure(ArgumentNull("accountId"))
    ensures r.Success? ==> && r.value.id == id.value && r.value.accountId == accountId.value
                           && r.value.kind == kind && r.value.amount == amount
                           && r.value.timestamp == now && r.value.idempotencyKey == idempotencyKey
  {
    if id.None? then Failure(ArgumentNull("id"))
    else if accountId.None? then Failure(ArgumentNull("accountId"))
    else Success(Transaction(id.value, accountId.value, kind, amount, now, idempotencyKey))
  }
}
