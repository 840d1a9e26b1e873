/**
 * The balance engine of one account: the net change of its balance over a
 * window of time, the transactions in that window still missing a side, and
 * the time of its latest transaction. `credits` and `debits` are the
 * account's credit and debit transactions (the rows naming it on that side).
 */
module AccountModel {
  import opened Wrappers
  import opened Models

  /** Inside the window; both bounds are inclusive. */
  predicate InWindow(t: Transaction, start: Timestamp, end: Timestamp) {
    start <= t.transactionDate <= end
  }

  /** Counted by the balance: categorised and inside the window. */
  predicate IsCounted(t: Transaction, start: Timestamp, end: Timestamp) {
    t.IsCategorized() && InWindow(t, start, end)
  }

  /** Listed as uncategorised: inside the window and missing a side. */
  predicate IsPending(t: Transaction, start: Timestamp, end: Timestamp) {
    InWindow(t, start, end) && !t.IsCategorized()
  }

  // ---------------------------------------------------------------------
  // balance

  /** What one transaction adds to a side's sum: its amount, or 0. */
  function Contribution(t: Transaction, start: Timestamp, end: Timestamp): (r: int)
    ensures !t.IsCategorized() ==> r == 0
    ensures !InWindow(t, start, end) ==> r == 0
    ensures IsCounted(t, start, end) ==> r == t.amount
  {
    if t.creditAccountId.None? || t.debitAccountId.None? then 0
    else if t.transactionDate >= start && t.transactionDate <= end then t.amount
    else 0
  }

  /** The sum of the contributions of a list of transactions. */
  function SumContributions(ts: seq<Transaction>, start: Timestamp, end: Timestamp): int
  {
    if ts == [] then 0 else Contribution(ts[0], start, end) + SumContributions(ts[1..], start, end)
  }

  /**
   * The net change of the account's balance between `start` and `end`:
   * credits minus debits, negated for an account that debits increase.
   */
  function Balance(credits: seq<Transaction>, debits: seq<Transaction>, debitInc: bool,
                   start: Timestamp, end: Timestamp): int
  {
    var finalBalance := SumContributions(credits, start, end) - SumContributions(debits, start, end);
    if debitInc then -finalBalance else finalBalance
  }

  // An independent reading of the balance: first select, then add up.

  /** The transactions the balance counts, in their original order. */
  function Counted(ts: seq<Transaction>, start: Timestamp, end: Timestamp): (r: seq<Transaction>)
    ensures forall t :: t in r <==> t in ts && IsCounted(t, start, end)
    ensures |r| <= |ts|
  {
    if ts == [] then []
    else (if IsCounted(ts[0], start, end) then [ts[0]] else []) + Counted(ts[1..], start, end)
  }

  /** The total amount of a list of transactions. */
  function Total(ts: seq<Transaction>): int {
    if ts == [] then 0 else ts[0].amount + Total(ts[1..])
  }

  /** The +1/-1 factor the debit-increase flag applies. */
  function Sign(debitInc: bool): int {
    if debitInc then -1 else 1
  }

  lemma {:induction false} SumIsTotalOfCounted(ts: seq<Transaction>, start: Timestamp, end: Timestamp)
    ensures SumContributions(ts, start, end) == Total(Counted(ts, start, end))
  {
    if ts != [] {
      SumIsTotalOfCounted(ts[1..], start, end);
      var head := if IsCounted(ts[0], start, end) then [ts[0]] else [];
      TotalAppend(head, Counted(ts[1..], start, end));
      assert Total(head) == Contribution(ts[0], start, end);
    }
  }

  lemma {:induction false} TotalAppend(a: seq<Transaction>, b: seq<Transaction>)
    ensures Total(a + b) == Total(a) + Total(b)
  {
    if a != [] {
      assert (a + b)[0] == a[0] && (a + b)[1..] == a[1..] + b;
      TotalAppend(a[1..], b);
      assert Total(a + b) == a[0].amount + Total(a[1..] + b);
    } else {
      assert a + b == b;
    }
  }

  /**
   * The balance is the total of the counted credits minus the total of the
   * counted debits, times -1 for a debit-increase account; the flag exactly
   * negates the value.
   */
  lemma BalanceIsCountedCreditsMinusDebits(credits: seq<Transaction>, debits: seq<Transaction>,
                                           debitInc: bool, start: Timestamp, end: Timestamp)
    ensures Balance(credits, debits, debitInc, start, end)
         == Sign(debitInc) * (Total(Counted(credits, start, end)) - Total(Counted(debits, start, end)))
    ensures Balance(credits, debits, true, start, end) == -Balance(credits, debits, false, start, end)
  {
    SumIsTotalOfCounted(credits, start, end);
    SumIsTotalOfCounted(debits, start, end);
  }

  /** With no categorised transaction inside the window, the balance is 0. */
  lemma NothingCountedMeansZeroBalance(credits: seq<Transaction>, debits: seq<Transaction>,
                                       debitInc: bool, start: Timestamp, end: Timestamp)
    requires forall t :: t in credits ==> !IsCounted(t, start, end)
    requires forall t :: t in debits ==> !IsCounted(t, start, end)
    ensures Balance(credits, debits, debitInc, start, end) == 0
  {
    BalanceIsCountedCreditsMinusDebits(credits, debits, debitInc, start, end);
    NoneCountedMeansEmpty(credits, start, end);
    NoneCountedMeansEmpty(debits, start, end);
  }

  lemma {:induction false} NoneCountedMeansEmpty(ts: seq<Transaction>, start: Timestamp, end: Timestamp)
    requires forall t :: t in ts ==> !IsCounted(t, start, end)
    ensures Counted(ts, start, end) == []
  {
    if ts != [] {
      assert ts[0] in ts;
      NoneCountedMeansEmpty(ts[1..], start, end);
    }
  }

  // ---------------------------------------------------------------------
  // uncategorized_transactions

  /** The in-window transactions of one list that miss a side, in order. */
  function PendingIn(ts: seq<Transaction>, start: Timestamp, end: Timestamp): (r: seq<Transaction>)
    ensures forall t :: t in r <==> t in ts && IsPending(t, start, end)
    ensures |r| <= |ts|
  {
    if ts == [] then []
    else (if IsPending(ts[0], start, end) then [ts[0]] else []) + PendingIn(ts[1..], start, end)
  }

  /**
   * Matches from the credit list first, then from the debit list: exactly
   * the in-window transactions of the account that miss a side.
   */
  function Uncategorized(credits: seq<Transaction>, debits: seq<Transaction>,
                         start: Timestamp, end: Timestamp): (r: seq<Transaction>)
    ensures forall t :: t in r <==> (t in credits || t in debits) && InWindow(t, start, end) && !t.IsCategorized()
    ensures |r| <= |credits| + |debits|
  {
    PendingIn(credits, start, end) + PendingIn(debits, start, end)
  }

  /** Selecting keeps the original order: it distributes over concatenation. */
  lemma {:induction false} PendingInKeepsOrder(a: seq<Transaction>, b: seq<Transaction>,
                                               start: Timestamp, end: Timestamp)
    ensures PendingIn(a + b, start, end) == PendingIn(a, start, end) + PendingIn(b, start, end)
  {
    if a != [] {
      assert (a + b)[0] == a[0] && (a + b)[1..] == a[1..] + b;
      PendingInKeepsOrder(a[1..], b, start, end);
      var head := if IsPending(a[0], start, end) then [a[0]] else [];
      assert PendingIn(a + b, start, end) == head + PendingIn(a[1..] + b, start, end);
      assert PendingIn(a, start, end) == head + PendingIn(a[1..], start, end);
      assert head + (PendingIn(a[1..], start, end) + PendingIn(b, start, end))
          == (head + PendingIn(a[1..], start, end)) + PendingIn(b, start, end);
    } else {
      assert a + b == b;
    }
  }

  /** The in-window transactions of a list, in order. */
  function InWindowOf(ts: seq<Transaction>, start: Timestamp, end: Timestamp): seq<Transaction>
  {
    if ts == [] then []
    else (if InWindow(ts[0], start, end) then [ts[0]] else []) + InWindowOf(ts[1..], start, end)
  }

  /**
   * Every in-window transaction is either counted by the balance or listed
   * as uncategorised, never both.
   */
  lemma {:induction false} CountedAndPendingPartitionWindow(ts: seq<Transaction>, start: Timestamp, end: Timestamp)
    ensures multiset(InWindowOf(ts, start, end))
         == multiset(Counted(ts, start, end)) + multiset(PendingIn(ts, start, end))
  {
    if ts != [] {
      CountedAndPendingPartitionWindow(ts[1..], start, end);
    }
  }

  /** For a single transaction of the account: inside the window, counted iff not listed. */
  lemma CountedXorListed(credits: seq<Transaction>, debits: seq<Transaction>,
                         start: Timestamp, end: Timestamp, t: Transaction)
    requires t in credits || t in debits
    requires InWindow(t, start, end)
    ensures IsCounted(t, start, end) <==> t !in Uncategorized(credits, debits, start, end)
  {
  }

  // ---------------------------------------------------------------------
  // last_updated

  /** The latest transaction date of a non-empty list. */
  function LatestDate(ts: seq<Transaction>): (r: Timestamp)
    requires ts != []
    ensures forall t :: t in ts ==> t.transactionDate <= r
    ensures exists t :: t in ts && t.transactionDate == r
  {
    if |ts| == 1 then ts[0].transactionDate
    else
      var rest := LatestDate(ts[1..]);
      assert forall t :: t in ts[1..] ==> t in ts;
      if ts[0].transactionDate >= rest then ts[0].transactionDate else rest
  }

  /**
   * The date of the latest transaction of the account, or `now` when it has
   * none; an empty side contributes the earliest datetime.
   */
  function LastUpdated(credits: seq<Transaction>, debits: seq<Transaction>, now: Timestamp): (r: Timestamp)
    ensures credits == [] && debits == [] ==> r == now
    ensures credits != [] || debits != [] ==>
              (forall t :: t in credits + debits ==> t.transactionDate <= r) &&
              (exists t :: t in credits + debits && t.transactionDate == r)
  {
    if |credits| == 0 && |debits| == 0 then now
    else
      var creditLatest := if credits != [] then LatestDate(credits) else Earliest;
      var debitLatest := if debits != [] then LatestDate(debits) else Earliest;
      if creditLatest >= debitLatest then creditLatest else debitLatest
  }
}
