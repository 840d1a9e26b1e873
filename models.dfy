/**
 * The three tables of the ledger: account types, accounts and transactions,
 * as values. Amounts are integer cents and points in time are natural
 * numbers, 0 being the earliest datetime the original program can express
 * (0001-01-01 00:00).
 */
module Models {
  import opened Wrappers

  /** A point in time; `Earliest` is 0001-01-01 00:00, the smallest datetime. */
  type Timestamp = nat

  const Earliest: Timestamp := 0

  /**
   * One row of the transactions table. A side that is not yet known is
   * `None`; a transaction with both sides set is a transfer between two
   * accounts.
   */
  datatype Transaction = Transaction(
    id: int,
    name: string,
    description: string,
    amount: int,
    debitAccountId: Option<int>,
    creditAccountId: Option<int>,
    transactionDate: Timestamp,
    dateEntered: Timestamp)
  {
    /** Both the debit and the credit side are set. */
    predicate IsCategorized() {
      debitAccountId.Some? && creditAccountId.Some?
    }
  }

  /** One row of the accounts table. */
  datatype Account = Account(id: int, name: string, accountTypeId: int, debitInc: bool)

  /** One row of the account_types table; `group` is the reporting group (Assets, Income, ...). */
  datatype AccountType = AccountType(id: int, name: string, group: string)
}
