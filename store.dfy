/**
 * The database the services work on: one map per table from primary key to
 * row, and for each table the id the next inserted row receives. A table
 * scan (and each relationship list of an account) yields rows in ascending
 * id order.
 */
module Store {
  import opened Wrappers
  import opened Models

  /** The rows with ids in [lo, hi), in ascending id order. */
  function Scan<T>(rows: map<int, T>, lo: int, hi: int): (r: seq<T>)
    ensures forall x :: x in r ==> exists k :: lo <= k < hi && k in rows && rows[k] == x
    ensures forall k :: lo <= k < hi && k in rows ==> rows[k] in r
    decreases hi - lo
  {
    if lo >= hi then [] else (if lo in rows then [rows[lo]] else []) + Scan(rows, lo + 1, hi)
  }

  /** Every key is a valid row id below `next`. */
  ghost predicate KeysBelow<T>(rows: map<int, T>, next: int) {
    1 <= next && forall k :: k in rows ==> 1 <= k < next
  }

  /** The rows naming `accountId` on their credit side, in id order. */
  function CreditsOf(rows: seq<Transaction>, accountId: int): (r: seq<Transaction>)
    ensures forall t :: t in r <==> t in rows && t.creditAccountId == Some(accountId)
  {
    if rows == [] then []
    else (if rows[0].creditAccountId == Some(accountId) then [rows[0]] else []) + CreditsOf(rows[1..], accountId)
  }

  /** The rows naming `accountId` on their debit side, in id order. */
  function DebitsOf(rows: seq<Transaction>, accountId: int): (r: seq<Transaction>)
    ensures forall t :: t in r <==> t in rows && t.debitAccountId == Some(accountId)
  {
    if rows == [] then []
    else (if rows[0].debitAccountId == Some(accountId) then [rows[0]] else []) + DebitsOf(rows[1..], accountId)
  }

  class Db {
    var transactions: map<int, Transaction>
    var nextTransactionId: int
    var accounts: map<int, Account>
    var nextAccountId: int
    var accountTypes: map<int, AccountType>
    var nextAccountTypeId: int

    /** Ids are positive, below the next id to hand out, and stored in their rows. */
    ghost predicate Valid()
      reads this
    {
      && KeysBelow(transactions, nextTransactionId)
      && (forall k :: k in transactions ==> transactions[k].id == k)
      && KeysBelow(accounts, nextAccountId)
      && (forall k :: k in accounts ==> accounts[k].id == k)
      && KeysBelow(accountTypes, nextAccountTypeId)
      && (forall k :: k in accountTypes ==> accountTypes[k].id == k)
    }

    constructor ()
      ensures Valid()
      ensures transactions == map[] && accounts == map[] && accountTypes == map[]
    {
      transactions, nextTransactionId := map[], 1;
      accounts, nextAccountId := map[], 1;
      accountTypes, nextAccountTypeId := map[], 1;
    }

    /** All transactions, as a table scan returns them. */
    function TransactionRows(): seq<Transaction>
      reads this
    {
      Scan(transactions, 1, nextTransactionId)
    }

    /** All accounts, as a table scan returns them. */
    function AccountRows(): seq<Account>
      reads this
    {
      Scan(accounts, 1, nextAccountId)
    }

    /** All account types, as a table scan returns them. */
    function AccountTypeRows(): seq<AccountType>
      reads this
    {
      Scan(accountTypes, 1, nextAccountTypeId)
    }
  }
}
