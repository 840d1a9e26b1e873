/**
 * The transaction services: listing an account's transactions, and the four
 * batch operations (add, categorise, update, remove). Every batch handles
 * its items one by one, collects the failures and reports them in one
 * message; a failed item never stops the batch.
 */
module TransactionServices {
  import opened Wrappers
  import opened Models
  import opened Store
  import opened BatchMessages

  // =====================================================================
  // get_transactions_by_account

  /** A side as the listing shows it: the account id, or "undefined" when missing. */
  datatype AccountRef = AccountId(id: int) | Undefined

  /** One transaction as the listing returns it. */
  datatype TransactionRecord = TransactionRecord(
    id: int,
    name: string,
    description: string,
    amount: int,
    debitAccountId: AccountRef,
    creditAccountId: AccountRef,
    transactionDate: Timestamp,
    dateEntered: Timestamp)

  /** The listing's rendering of a side: a missing side becomes "undefined". */
  function Render(side: Option<int>): (r: AccountRef)
    ensures r == Undefined <==> side.None?
    ensures side.Some? ==> r == AccountId(side.value)
  {
    match side
    case None => Undefined
    case Some(id) => AccountId(id)
  }

  function ToRecord(t: Transaction): TransactionRecord {
    TransactionRecord(t.id, t.name, t.description, t.amount,
                      Render(t.debitAccountId), Render(t.creditAccountId),
                      t.transactionDate, t.dateEntered)
  }

  /** The row names one of the accounts on its debit or on its credit side. */
  predicate Involves(t: Transaction, accountIds: seq<int>) {
    || (t.debitAccountId.Some? && t.debitAccountId.value in accountIds)
    || (t.creditAccountId.Some? && t.creditAccountId.value in accountIds)
  }

  /** The categorisation filter of the listing. */
  datatype Filter = UncategorizedOnly | CategorizedOnly | AllRows

  /** "uncategorized" and "categorized" select; any other value lists every row. */
  function ParseFilter(categorizeType: string): Filter {
    if categorizeType == "uncategorized" then UncategorizedOnly
    else if categorizeType == "categorized" then CategorizedOnly
    else AllRows
  }

  predicate KeptBy(filter: Filter, t: Transaction) {
    match filter
    case UncategorizedOnly => t.debitAccountId.None? || t.creditAccountId.None?
    case CategorizedOnly => t.debitAccountId.Some? && t.creditAccountId.Some?
    case AllRows => true
  }

  /** The selected rows of `rows`, in order, as records. */
  function TransactionsByAccount(rows: seq<Transaction>, accountIds: seq<int>, filter: Filter)
    : (r: seq<TransactionRecord>)
    ensures forall x :: x in r ==>
              exists t :: t in rows && Involves(t, accountIds) && KeptBy(filter, t) && x == ToRecord(t)
    ensures forall t :: t in rows && Involves(t, accountIds) && KeptBy(filter, t) ==> ToRecord(t) in r
  {
    if rows == [] then []
    else
      (if Involves(rows[0], accountIds) && KeptBy(filter, rows[0]) then [ToRecord(rows[0])] else [])
      + TransactionsByAccount(rows[1..], accountIds, filter)
  }

  /** The listing over the whole transactions table. */
  function GetTransactionsByAccount(db: Db, accountIds: seq<int>, categorizeType: string)
    : (r: seq<TransactionRecord>)
    reads db
    ensures accountIds == [] ==> r == []
    ensures forall x :: x in r ==>
              (x.debitAccountId.AccountId? && x.debitAccountId.id in accountIds)
              || (x.creditAccountId.AccountId? && x.creditAccountId.id in accountIds)
    ensures categorizeType == "uncategorized" ==>
              forall x :: x in r ==> x.debitAccountId == Undefined || x.creditAccountId == Undefined
    ensures categorizeType == "categorized" ==>
              forall x :: x in r ==> x.debitAccountId != Undefined && x.creditAccountId != Undefined
    ensures forall t :: (t in db.TransactionRows() && Involves(t, accountIds)
                         && KeptBy(ParseFilter(categorizeType), t)) ==> ToRecord(t) in r
  {
    var r := TransactionsByAccount(db.TransactionRows(), accountIds, ParseFilter(categorizeType));
    assert r != [] ==> r[0] in r;
    r
  }

  /** Every listed record names a requested account, and shows a missing side as "undefined". */
  lemma ListedRecordsNameTheAccounts(rows: seq<Transaction>, accountIds: seq<int>, filter: Filter,
                                     x: TransactionRecord)
    requires x in TransactionsByAccount(rows, accountIds, filter)
    ensures (x.debitAccountId.AccountId? && x.debitAccountId.id in accountIds)
         || (x.creditAccountId.AccountId? && x.creditAccountId.id in accountIds)
    ensures exists t :: t in rows && x == ToRecord(t)
                     && (x.debitAccountId == Undefined <==> t.debitAccountId.None?)
                     && (x.creditAccountId == Undefined <==> t.creditAccountId.None?)
  {
  }

  /** The uncategorised and the categorised listings split the full listing between them. */
  lemma {:induction false} CategorizationFiltersPartition(rows: seq<Transaction>, accountIds: seq<int>)
    ensures multiset(TransactionsByAccount(rows, accountIds, UncategorizedOnly))
          + multiset(TransactionsByAccount(rows, accountIds, CategorizedOnly))
         == multiset(TransactionsByAccount(rows, accountIds, AllRows))
  {
    if rows != [] {
      var t, rest := rows[0], rows[1..];
      CategorizationFiltersPartition(rest, accountIds);
      var hit := Involves(t, accountIds);
      assert TransactionsByAccount(rows, accountIds, UncategorizedOnly)
          == (if hit && KeptBy(UncategorizedOnly, t) then [ToRecord(t)] else [])
             + TransactionsByAccount(rest, accountIds, UncategorizedOnly);
      assert TransactionsByAccount(rows, accountIds, CategorizedOnly)
          == (if hit && KeptBy(CategorizedOnly, t) then [ToRecord(t)] else [])
             + TransactionsByAccount(rest, accountIds, CategorizedOnly);
      assert TransactionsByAccount(rows, accountIds, AllRows)
          == (if hit then [ToRecord(t)] else []) + TransactionsByAccount(rest, accountIds, AllRows);
      assert KeptBy(UncategorizedOnly, t) != KeptBy(CategorizedOnly, t);
    }
  }

  // =====================================================================
  // add_new_transactions

  /** A date as the request gives it: an ISO date, or a string that is none. */
  datatype DateInput = Iso(at: Timestamp) | Malformed

  /** One item of an add request; `None` is a key the item does not have. */
  datatype NewTransactionRequest = NewTransactionRequest(
    name: Option<string>,
    description: Option<string>,
    amount: Option<int>,
    debitAccountId: Option<int>,
    creditAccountId: Option<int>,
    transactionDate: Option<DateInput>)

  /**
   * The unsaved row built from one item (id 0 until the insert assigns one),
   * or the error raised while building it.
   */
  function NewTransaction(request: NewTransactionRequest, now: Timestamp): (r: Result<Transaction>)
    ensures r.Err? <==> request.name.None? || request.description.None? || request.amount.None?
                        || request.transactionDate.None? || request.transactionDate == Some(Malformed)
    ensures r.Ok? ==>
              && r.value.name == request.name.value
              && r.value.description == request.description.value
              && r.value.amount == request.amount.value
              && r.value.debitAccountId == request.debitAccountId
              && r.value.creditAccountId == request.creditAccountId
              && r.value.transactionDate == request.transactionDate.value.at
              && r.value.dateEntered == now
  {
    if request.name.None? then Err(MissingKey("name"))
    else if request.description.None? then Err(MissingKey("description"))
    else if request.amount.None? then Err(MissingKey("amount"))
    else if request.transactionDate.None? then Err(MissingKey("transaction_date"))
    else match request.transactionDate.value
      case Malformed => Err(MalformedDate)
      case Iso(at) =>
        Ok(Transaction(0, request.name.value, request.description.value, request.amount.value,
                       request.debitAccountId, request.creditAccountId, at, now))
  }

  /** The rows a batch adds, in item order. */
  function Drafts(requests: seq<NewTransactionRequest>, now: Timestamp): seq<Transaction>
  {
    if requests == [] then []
    else
      var i := |requests| - 1;
      var built := NewTransaction(requests[i], now);
      Drafts(requests[..i], now) + (if built.Ok? then [built.value] else [])
  }

  /** The failures of an add batch, keyed by item position, in item order. */
  function AddFailures(requests: seq<NewTransactionRequest>, now: Timestamp): (fs: seq<Failure>)
    ensures forall f :: f in fs ==> 0 <= f.key < |requests|
    ensures KeysIncrease(fs)
  {
    if requests == [] then []
    else
      var i := |requests| - 1;
      var built := NewTransaction(requests[i], now);
      AddFailures(requests[..i], now) + (if built.Err? then [Failure(i, built.error)] else [])
  }

  /** Failures are listed in processing order. */
  predicate KeysIncrease(fs: seq<Failure>) {
    forall a, b :: 0 <= a < b < |fs| ==> fs[a].key < fs[b].key
  }

  /** The table after inserting `drafts`, in order, under consecutive ids from `next`. */
  function Persisted(rows: map<int, Transaction>, next: int, drafts: seq<Transaction>): map<int, Transaction>
  {
    if drafts == [] then rows
    else
      var j := |drafts| - 1;
      Persisted(rows, next, drafts[..j])[next + j := drafts[j].(id := next + j)]
  }

  lemma PersistedOneMore(rows: map<int, Transaction>, next: int, drafts: seq<Transaction>, j: nat)
    requires j < |drafts|
    ensures Persisted(rows, next, drafts[..j + 1])
         == Persisted(rows, next, drafts[..j])[next + j := drafts[j].(id := next + j)]
  {
    assert drafts[..j + 1][..j] == drafts[..j];
  }

  method AddNewTransactions(db: Db, transactions: seq<NewTransactionRequest>, now: Timestamp)
    returns (message: string)
    requires db.Valid()
    modifies db`transactions, db`nextTransactionId
    ensures db.Valid()
    ensures db.transactions
         == Persisted(old(db.transactions), old(db.nextTransactionId), Drafts(transactions, now))
    ensures db.nextTransactionId == old(db.nextTransactionId) + |Drafts(transactions, now)|
    ensures message == BatchMessage(AddFailures(transactions, now))
  {
    var newTransactions: seq<Transaction> := [];
    var problemTransactions: seq<Failure> := [];
    for i := 0 to |transactions|
      invariant newTransactions == Drafts(transactions[..i], now)
      invariant problemTransactions == AddFailures(transactions[..i], now)
    {
      assert transactions[..i + 1][..i] == transactions[..i];
      var built := NewTransaction(transactions[i], now);
      if built.Ok? {
        newTransactions := newTransactions + [built.value];
      } else {
        problemTransactions := problemTransactions + [Failure(i, built.error)];
      }
    }
    assert transactions[..|transactions|] == transactions;

    // the built rows are inserted together, in item order, and committed
    ghost var rows, next := db.transactions, db.nextTransactionId;
    for j := 0 to |newTransactions|
      invariant db.transactions == Persisted(rows, next, newTransactions[..j])
      invariant db.nextTransactionId == next + j
      invariant db.Valid()
    {
      PersistedOneMore(rows, next, newTransactions, j);
      db.transactions := db.transactions[db.nextTransactionId := newTransactions[j].(id := db.nextTransactionId)];
      db.nextTransactionId := db.nextTransactionId + 1;
    }
    assert newTransactions[..|newTransactions|] == newTransactions;

    message := BuildMessage(problemTransactions);
  }

  /** An item is reported, under its position and with its error, exactly when it cannot be built. */
  lemma {:induction false} AddReportsExactlyTheBadItems(requests: seq<NewTransactionRequest>, now: Timestamp,
                                                        i: int, e: ItemError)
    requires 0 <= i < |requests|
    ensures Failure(i, e) in AddFailures(requests, now) <==> NewTransaction(requests[i], now) == Err(e)
  {
    var n := |requests| - 1;
    if i < n {
      assert requests[..n][i] == requests[i];
      AddReportsExactlyTheBadItems(requests[..n], now, i, e);
    }
  }

  /** Every item is either stored or reported: no item is lost. */
  lemma {:induction false} AddStoresOrReportsEveryItem(requests: seq<NewTransactionRequest>, now: Timestamp)
    ensures |Drafts(requests, now)| + |AddFailures(requests, now)| == |requests|
  {
    if requests != [] {
      AddStoresOrReportsEveryItem(requests[..|requests| - 1], now);
    }
  }

  /** A well-formed item is stored even when other items of the batch fail. */
  lemma {:induction false} AddStoresEveryGoodItem(requests: seq<NewTransactionRequest>, now: Timestamp, i: int)
    requires 0 <= i < |requests|
    requires NewTransaction(requests[i], now).Ok?
    ensures NewTransaction(requests[i], now).value in Drafts(requests, now)
  {
    var n := |requests| - 1;
    if i < n {
      assert requests[..n][i] == requests[i];
      AddStoresEveryGoodItem(requests[..n], now, i);
    }
  }

  /** The insert keeps the old rows and stores the j-th new row under id next + j, and nothing else. */
  lemma {:induction false} PersistedRows(rows: map<int, Transaction>, next: int, drafts: seq<Transaction>)
    requires forall k :: k in rows ==> k < next
    ensures forall k :: k in Persisted(rows, next, drafts) <==> k in rows || next <= k < next + |drafts|
    ensures forall k :: k in rows ==> Persisted(rows, next, drafts)[k] == rows[k]
    ensures forall j :: 0 <= j < |drafts| ==> Persisted(rows, next, drafts)[next + j] == drafts[j].(id := next + j)
    ensures |Persisted(rows, next, drafts)| == |rows| + |drafts|
  {
    if drafts != [] {
      var j := |drafts| - 1;
      PersistedRows(rows, next, drafts[..j]);
      assert next + j !in Persisted(rows, next, drafts[..j]);
    }
  }

  /** The batch says "SUCCESS" exactly when every item could be built. */
  lemma AddSucceedsIff(requests: seq<NewTransactionRequest>, now: Timestamp)
    ensures BatchMessage(AddFailures(requests, now)) == Success
        <==> forall i :: 0 <= i < |requests| ==> NewTransaction(requests[i], now).Ok?
  {
    NoAddFailuresIff(requests, now);
  }

  lemma {:induction false} NoAddFailuresIff(requests: seq<NewTransactionRequest>, now: Timestamp)
    ensures AddFailures(requests, now) == [] <==> forall i :: 0 <= i < |requests| ==> NewTransaction(requests[i], now).Ok?
  {
    if requests != [] {
      var n := |requests| - 1;
      NoAddFailuresIff(requests[..n], now);
      assert forall i :: 0 <= i < n ==> requests[..n][i] == requests[i];
    }
  }

  // =====================================================================
  // categorize_transactions

  /** A category id as the request gives it: something int() accepts, or not. */
  datatype IntInput = IntLike(value: int) | NotIntLike

  /** One item of a categorise request; `None` is a key the item does not have. */
  datatype CategorizeRequest = CategorizeRequest(
    transactionId: Option<int>,
    debitOrCredit: Option<string>,
    categoryId: Option<IntInput>)

  /** The category id as an integer; a missing key or a non-integer text is an error. */
  function CategoryIdValue(categoryId: Option<IntInput>): (r: Result<int>)
    ensures r.Ok? <==> categoryId.Some? && categoryId.value.IntLike?
  {
    match categoryId
    case None => Err(MissingKey("category_id"))
    case Some(NotIntLike) => Err(NotAnInteger)
    case Some(IntLike(v)) => Ok(v)
  }

  /** The side the item assigns: only the exact text "debit" selects the debit side. */
  predicate SetsDebit(request: CategorizeRequest)
    requires request.debitOrCredit.Some?
  {
    request.debitOrCredit.value == "debit"
  }

  /** An item that fails, judged from the table's keys alone. */
  predicate CategorizeFails(keys: set<int>, request: CategorizeRequest) {
    || request.transactionId.None?
    || request.debitOrCredit.None?
    || CategoryIdValue(request.categoryId).Err?
    || request.transactionId.value !in keys
  }

  /** The categorised row for one item, or the error raised while assigning it. */
  function Categorized(rows: map<int, Transaction>, request: CategorizeRequest): (r: Result<Transaction>)
    ensures r.Err? <==> CategorizeFails(rows.Keys, request)
    ensures r.Ok? ==>
              var t := rows[request.transactionId.value];
              var c := CategoryIdValue(request.categoryId).value;
              if SetsDebit(request) then r.value == t.(debitAccountId := Some(c))
              else r.value == t.(creditAccountId := Some(c))
  {
    if request.transactionId.None? then Err(MissingKey("transaction_id"))
    else if request.debitOrCredit.None? then Err(MissingKey("debit_or_credit"))
    else
      var category := CategoryIdValue(request.categoryId);
      if category.Err? then Err(category.error)
      else if request.transactionId.value !in rows then
        Err(NoSuchTransaction(if SetsDebit(request) then "debit_account_id" else "credit_account_id"))
      else
        var t := rows[request.transactionId.value];
        Ok(if SetsDebit(request) then t.(debitAccountId := Some(category.value))
           else t.(creditAccountId := Some(category.value)))
  }

  /** The table and the failures so far, part way through a batch. */
  datatype BatchState = BatchState(rows: map<int, Transaction>, failures: seq<Failure>)

  /** A categorise batch: each successful item is committed before the next one runs. */
  function CategorizeAll(rows: map<int, Transaction>, requests: seq<CategorizeRequest>): (s: BatchState)
    ensures s.rows.Keys == rows.Keys
    ensures forall f :: f in s.failures ==> 0 <= f.key < |requests|
    ensures KeysIncrease(s.failures)
  {
    if requests == [] then BatchState(rows, [])
    else
      var i := |requests| - 1;
      CategorizeStep(CategorizeAll(rows, requests[..i]), requests[i], i)
  }

  /** Item `i` of a categorise batch applied to the state the earlier items left. */
  function CategorizeStep(s: BatchState, request: CategorizeRequest, i: int): (r: BatchState)
    ensures r.rows.Keys == s.rows.Keys
  {
    match Categorized(s.rows, request)
    case Ok(t) => BatchState(s.rows[request.transactionId.value := t], s.failures)
    case Err(e) => BatchState(s.rows, s.failures + [Failure(i, e)])
  }

  method CategorizeTransactions(db: Db, transactions: seq<CategorizeRequest>) returns (message: string)
    requires db.Valid()
    modifies db`transactions
    ensures db.Valid()
    ensures db.transactions == CategorizeAll(old(db.transactions), transactions).rows
    ensures message == BatchMessage(CategorizeAll(old(db.transactions), transactions).failures)
  {
    var problemTransactions: seq<Failure> := [];
    for i := 0 to |transactions|
      invariant BatchState(db.transactions, problemTransactions) == CategorizeAll(old(db.transactions), transactions[..i])
      invariant db.Valid()
    {
      assert transactions[..i + 1][..i] == transactions[..i];
      var trxn := transactions[i];
      var problem: Option<ItemError> := None;
      if trxn.transactionId.None? {
        problem := Some(MissingKey("transaction_id"));
      } else if trxn.debitOrCredit.None? {
        problem := Some(MissingKey("debit_or_credit"));
      } else {
        var id := trxn.transactionId.value;
        var found := id in db.transactions;   // no row has the id: the lookup yields nothing
        var category := CategoryIdValue(trxn.categoryId);
        if category.Err? {
          problem := Some(category.error);
        } else if SetsDebit(trxn) {
          if !found {
            problem := Some(NoSuchTransaction("debit_account_id"));
          } else {
            db.transactions := db.transactions[id := db.transactions[id].(debitAccountId := Some(category.value))];
          }
        } else {
          if !found {
            problem := Some(NoSuchTransaction("credit_account_id"));
          } else {
            db.transactions := db.transactions[id := db.transactions[id].(creditAccountId := Some(category.value))];
          }
        }
      }
      if problem.Some? {
        problemTransactions := problemTransactions + [Failure(i, problem.value)];
      }
    }
    assert transactions[..|transactions|] == transactions;
    message := BuildMessage(problemTransactions);
  }

  /**
   * An item is reported under its position exactly when it fails on the
   * table's keys; whether it fails does not depend on earlier items.
   */
  lemma {:induction false} CategorizeReportsExactlyTheBadItems(rows: map<int, Transaction>,
                                                               requests: seq<CategorizeRequest>, i: int)
    requires 0 <= i < |requests|
    ensures (exists e :: Failure(i, e) in CategorizeAll(rows, requests).failures)
        <==> CategorizeFails(rows.Keys, requests[i])
  {
    var n := |requests| - 1;
    var s := CategorizeAll(rows, requests[..n]);
    if i < n {
      assert requests[..n][i] == requests[i];
      CategorizeReportsExactlyTheBadItems(rows, requests[..n], i);
      forall e | Failure(i, e) in CategorizeAll(rows, requests).failures
        ensures Failure(i, e) in s.failures
      {
      }
    } else {
      forall e | Failure(i, e) in s.failures
        ensures false
      {
      }
      if !CategorizeFails(rows.Keys, requests[i]) {
        assert CategorizeAll(rows, requests).failures == s.failures;
      }
    }
  }

  /** The row an item names changes on one side only; everything else in it stays. */
  lemma CategorizeSetsOneSide(rows: map<int, Transaction>, request: CategorizeRequest)
    requires !CategorizeFails(rows.Keys, request)
    ensures var before, after := rows[request.transactionId.value], Categorized(rows, request).value;
            && after.id == before.id && after.name == before.name && after.description == before.description
            && after.amount == before.amount && after.transactionDate == before.transactionDate
            && after.dateEntered == before.dateEntered
            && (if SetsDebit(request)
                then after.debitAccountId == Some(CategoryIdValue(request.categoryId).value)
                     && after.creditAccountId == before.creditAccountId
                else after.creditAccountId == Some(CategoryIdValue(request.categoryId).value)
                     && after.debitAccountId == before.debitAccountId)
  {
  }

  /** A row that no successful item names keeps its contents. */
  lemma {:induction false} CategorizeLeavesOtherRows(rows: map<int, Transaction>, requests: seq<CategorizeRequest>,
                                                     k: int)
    requires k in rows
    requires forall i :: 0 <= i < |requests| && requests[i].transactionId == Some(k) ==>
               CategorizeFails(rows.Keys, requests[i])
    ensures CategorizeAll(rows, requests).rows[k] == rows[k]
  {
    if requests != [] {
      var n := |requests| - 1;
      assert forall i :: 0 <= i < n ==> requests[..n][i] == requests[i];
      CategorizeLeavesOtherRows(rows, requests[..n], k);
    }
  }

  /**
   * Earlier items stay committed: a row that item j categorises and no later
   * successful item names keeps, to the end of the batch, the value item j
   * gave it.
   */
  lemma {:induction false} CategorizeKeepsCommittedRow(rows: map<int, Transaction>, requests: seq<CategorizeRequest>,
                                                       j: int)
    requires 0 <= j < |requests| && !CategorizeFails(rows.Keys, requests[j])
    requires forall i :: j < i < |requests| && requests[i].transactionId == requests[j].transactionId ==>
               CategorizeFails(rows.Keys, requests[i])
    ensures CategorizeAll(rows, requests).rows[requests[j].transactionId.value]
         == Categorized(CategorizeAll(rows, requests[..j]).rows, requests[j]).value
  {
    var n := |requests| - 1;
    var k := requests[j].transactionId.value;
    if j < n {
      assert requests[..n][j] == requests[j];
      assert forall i :: j < i < n ==> requests[..n][i] == requests[i];
      assert requests[..n][..j] == requests[..j];
      CategorizeKeepsCommittedRow(rows, requests[..n], j);
      assert requests[n].transactionId == Some(k) ==> CategorizeFails(rows.Keys, requests[n]);
    } else {
      assert requests[..n] == requests[..j];
    }
  }

  // =====================================================================
  // update_transactions

  /** One item of an update request; `None` is a key the item does not have. */
  datatype UpdateRequest = UpdateRequest(
    id: Option<int>,
    name: Option<string>,
    description: Option<string>,
    amount: Option<int>,
    debitAccountId: Option<int>,
    creditAccountId: Option<int>,
    transactionDate: Option<DateInput>)

  /** The given text, unless it is absent or empty, in which case the current one stays. */
  function TextOr(given: Option<string>, current: string): string {
    if given.Some? && given.value != "" then given.value else current
  }

  /** The given number, unless it is absent or zero, in which case the current one stays. */
  function NumberOr(given: Option<int>, current: int): int {
    if given.Some? && given.value != 0 then given.value else current
  }

  /** The given account id, unless it is absent or zero, in which case the current side stays. */
  function SideOr(given: Option<int>, current: Option<int>): Option<int> {
    if given.Some? && given.value != 0 then given else current
  }

  /** An item that updates its row, judged from the table's keys alone. */
  predicate UpdateSucceeds(keys: set<int>, request: UpdateRequest) {
    && request.id.Some?
    && request.id.value in keys
    && request.transactionDate.Some?
    && request.transactionDate.value.Iso?
  }

  /** What one item leaves in the session: its view of the rows, and the error if it failed. */
  datatype UpdateStep = UpdateStep(view: map<int, Transaction>, error: Option<ItemError>)

  /**
   * One item against the session's view. The five field assignments happen
   * before the date is parsed, so a bad date leaves them in the view.
   */
  function UpdateOne(view: map<int, Transaction>, request: UpdateRequest, now: Timestamp): (r: UpdateStep)
    ensures r.error.None? <==> UpdateSucceeds(view.Keys, request)
    ensures r.view.Keys == view.Keys
    ensures forall k :: k in view && request.id != Some(k) ==> r.view[k] == view[k]
  {
    if request.id.None? then UpdateStep(view, Some(MissingKey("id")))
    else if request.id.value !in view then UpdateStep(view, Some(NoSuchTransaction("name")))
    else
      var k := request.id.value;
      var t := view[k];
      var t := t.(name := TextOr(request.name, t.name),
                  description := TextOr(request.description, t.description),
                  amount := NumberOr(request.amount, t.amount),
                  debitAccountId := SideOr(request.debitAccountId, t.debitAccountId),
                  creditAccountId := SideOr(request.creditAccountId, t.creditAccountId));
      match request.transactionDate
      case None => UpdateStep(view[k := t], Some(DateMissing))
      case Some(Malformed) => UpdateStep(view[k := t], Some(MalformedDate))
      case Some(Iso(at)) => UpdateStep(view[k := t.(transactionDate := at, dateEntered := now)], None)
  }

  /** A successful item replaces each field only when it gives a truthy value, and stamps the entry time. */
  lemma UpdateReplacesOnlyTruthyFields(view: map<int, Transaction>, request: UpdateRequest, now: Timestamp)
    requires UpdateSucceeds(view.Keys, request)
    ensures var before, after := view[request.id.value], UpdateOne(view, request, now).view[request.id.value];
            && after.id == before.id
            && (if request.name.Some? && request.name.value != "" then after.name == request.name.value
                else after.name == before.name)
            && (if request.description.Some? && request.description.value != ""
                then after.description == request.description.value
                else after.description == before.description)
            && (if request.amount.Some? && request.amount.value != 0 then after.amount == request.amount.value
                else after.amount == before.amount)
            && (if request.debitAccountId.Some? && request.debitAccountId.value != 0
                then after.debitAccountId == request.debitAccountId
                else after.debitAccountId == before.debitAccountId)
            && (if request.creditAccountId.Some? && request.creditAccountId.value != 0
                then after.creditAccountId == request.creditAccountId
                else after.creditAccountId == before.creditAccountId)
            && after.transactionDate == request.transactionDate.value.at
            && after.dateEntered == now
  {
  }

  /** The session through a batch as written: its view, what is committed, and the failures. */
  datatype Session = Session(view: map<int, Transaction>, committed: map<int, Transaction>, failures: seq<Failure>)

  /**
   * The update batch as written: a failed item is not rolled back, so its
   * field assignments stay in the session and the next successful item's
   * commit writes them too.
   */
  function UpdateAllAsWritten(rows: map<int, Transaction>, requests: seq<UpdateRequest>, now: Timestamp)
    : (s: Session)
    ensures s.view.Keys == rows.Keys && s.committed.Keys == rows.Keys
    ensures forall f :: f in s.failures ==> 0 <= f.key < |requests|
    ensures KeysIncrease(s.failures)
  {
    if requests == [] then Session(rows, rows, [])
    else
      var i := |requests| - 1;
      AsWrittenStep(UpdateAllAsWritten(rows, requests[..i], now), requests[i], i, now)
  }

  /** Item `i` as written: the view always takes its assignments; only success commits them. */
  function AsWrittenStep(s: Session, request: UpdateRequest, i: int, now: Timestamp): (r: Session)
    ensures r.view.Keys == s.view.Keys
    ensures r.committed == s.committed || r.committed == r.view
    ensures forall k :: k in s.view && request.id != Some(k) ==> r.view[k] == s.view[k]
  {
    var step := UpdateOne(s.view, request, now);
    if step.error.None? then Session(step.view, step.view, s.failures)
    else Session(step.view, s.committed, s.failures + [Failure(i, step.error.value)])
  }

  /** The update batch with a failed item rolled back: only successful items change the table. */
  function UpdateAll(rows: map<int, Transaction>, requests: seq<UpdateRequest>, now: Timestamp): (s: BatchState)
    ensures s.rows.Keys == rows.Keys
    ensures forall f :: f in s.failures ==> 0 <= f.key < |requests|
  {
    if requests == [] then BatchState(rows, [])
    else
      var i := |requests| - 1;
      var s := UpdateAll(rows, requests[..i], now);
      var step := UpdateOne(s.rows, requests[i], now);
      if step.error.None? then BatchState(step.view, s.failures)
      else BatchState(s.rows, s.failures + [Failure(i, step.error.value)])
  }

  /** Ids stay in their rows through one item. */
  lemma UpdateOneKeepsIds(view: map<int, Transaction>, request: UpdateRequest, now: Timestamp)
    requires forall k :: k in view ==> view[k].id == k
    ensures forall k :: k in UpdateOne(view, request, now).view ==> UpdateOne(view, request, now).view[k].id == k
  {
  }

  /** update_transactions as written. */
  method UpdateTransactions(db: Db, transactions: seq<UpdateRequest>, now: Timestamp) returns (message: string)
    requires db.Valid()
    modifies db`transactions
    ensures db.Valid()
    ensures db.transactions == UpdateAllAsWritten(old(db.transactions), transactions, now).committed
    ensures message == BatchMessage(UpdateAllAsWritten(old(db.transactions), transactions, now).failures)
  {
    var view := db.transactions;   // the rows as the session sees them, committed or not
    var problemTransactions: seq<Failure> := [];
    for i := 0 to |transactions|
      invariant Session(view, db.transactions, problemTransactions)
             == UpdateAllAsWritten(old(db.transactions), transactions[..i], now)
      invariant forall k :: k in view ==> view[k].id == k
      invariant db.Valid()
    {
      AsWrittenOneMore(old(db.transactions), transactions, now, i);
      UpdateOneKeepsIds(view, transactions[i], now);
      var problem;
      view, problem := UpdateInSession(view, transactions[i], now);
      if problem.None? {
        db.transactions := view;   // the commit writes everything the session holds
      } else {
        problemTransactions := problemTransactions + [Failure(i, problem.value)];
      }
    }
    assert transactions[..|transactions|] == transactions;
    message := BuildMessage(problemTransactions);
  }

  /** The body of the try block: the assignments to the session's copy of the row, up to the commit. */
  method UpdateInSession(view: map<int, Transaction>, trxn: UpdateRequest, now: Timestamp)
    returns (newView: map<int, Transaction>, problem: Option<ItemError>)
    ensures UpdateStep(newView, problem) == UpdateOne(view, trxn, now)
  {
    newView, problem := view, None;
    if trxn.id.None? {
      problem := Some(MissingKey("id"));
    } else if trxn.id.value !in view {
      problem := Some(NoSuchTransaction("name"));
    } else {
      var id := trxn.id.value;
      var transaction := view[id];
      transaction := transaction.(name := TextOr(trxn.name, transaction.name));
      transaction := transaction.(description := TextOr(trxn.description, transaction.description));
      transaction := transaction.(amount := NumberOr(trxn.amount, transaction.amount));
      transaction := transaction.(debitAccountId := SideOr(trxn.debitAccountId, transaction.debitAccountId));
      transaction := transaction.(creditAccountId := SideOr(trxn.creditAccountId, transaction.creditAccountId));
      newView := view[id := transaction];
      match trxn.transactionDate {
        case None =>
          problem := Some(DateMissing);
        case Some(Malformed) =>
          problem := Some(MalformedDate);
        case Some(Iso(at)) =>
          transaction := transaction.(transactionDate := at);
          transaction := transaction.(dateEntered := now);
          newView := view[id := transaction];
      }
    }
  }

  lemma AsWrittenOneMore(rows: map<int, Transaction>, requests: seq<UpdateRequest>, now: Timestamp, i: nat)
    requires i < |requests|
    ensures UpdateAllAsWritten(rows, requests[..i + 1], now)
         == AsWrittenStep(UpdateAllAsWritten(rows, requests[..i], now), requests[i], i, now)
  {
    assert requests[..i + 1][..i] == requests[..i];
  }

  /** As written, a row that no item names keeps its contents, in the session and in the database. */
  lemma {:induction false} AsWrittenLeavesUnnamedRows(rows: map<int, Transaction>, requests: seq<UpdateRequest>,
                                                      now: Timestamp, k: int)
    requires k in rows
    requires forall i :: 0 <= i < |requests| ==> requests[i].id != Some(k)
    ensures UpdateAllAsWritten(rows, requests, now).view[k] == rows[k]
    ensures UpdateAllAsWritten(rows, requests, now).committed[k] == rows[k]
  {
    if requests != [] {
      var n := |requests| - 1;
      assert forall i :: 0 <= i < n ==> requests[..n][i] == requests[i];
      AsWrittenLeavesUnnamedRows(rows, requests[..n], now, k);
    }
  }

  /**
   * As written, the last item naming a row decides it when that item
   * succeeds: the row keeps the value the item gave it, in the session and
   * in the database.
   */
  lemma {:induction false} AsWrittenKeepsLastUpdate(rows: map<int, Transaction>, requests: seq<UpdateRequest>,
                                                    now: Timestamp, j: int)
    requires 0 <= j < |requests| && UpdateSucceeds(rows.Keys, requests[j])
    requires forall i :: j < i < |requests| ==> requests[i].id != requests[j].id
    ensures var k := requests[j].id.value;
            var v := UpdateOne(UpdateAllAsWritten(rows, requests[..j], now).view, requests[j], now).view[k];
            && UpdateAllAsWritten(rows, requests, now).committed[k] == v
            && UpdateAllAsWritten(rows, requests, now).view[k] == v
  {
    var n := |requests| - 1;
    var k := requests[j].id.value;
    var before := UpdateAllAsWritten(rows, requests[..n], now);
    assert UpdateAllAsWritten(rows, requests, now) == AsWrittenStep(before, requests[n], n, now);
    if j < n {
      assert requests[..n][j] == requests[j];
      assert forall i :: j < i < n ==> requests[..n][i] == requests[i];
      assert requests[..n][..j] == requests[..j];
      AsWrittenKeepsLastUpdate(rows, requests[..n], now, j);
      assert requests[n].id != Some(k);
    } else {
      assert requests[..n] == requests[..j];
      assert UpdateOne(before.view, requests[j], now).error.None?;
    }
  }

  /** Both readings report the same failures: only what gets committed differs. */
  lemma {:induction false} UpdateReadingsReportAlike(rows: map<int, Transaction>, requests: seq<UpdateRequest>,
                                                     now: Timestamp)
    ensures UpdateAllAsWritten(rows, requests, now).failures == UpdateAll(rows, requests, now).failures
  {
    if requests != [] {
      UpdateReadingsReportAlike(rows, requests[..|requests| - 1], now);
    }
  }

  /** An item is reported under its position exactly when it does not update its row. */
  lemma {:induction false} UpdateReportsExactlyTheBadItems(rows: map<int, Transaction>, requests: seq<UpdateRequest>,
                                                           now: Timestamp, i: int)
    requires 0 <= i < |requests|
    ensures (exists e :: Failure(i, e) in UpdateAll(rows, requests, now).failures)
        <==> !UpdateSucceeds(rows.Keys, requests[i])
  {
    var n := |requests| - 1;
    var s := UpdateAll(rows, requests[..n], now);
    if i < n {
      assert requests[..n][i] == requests[i];
      UpdateReportsExactlyTheBadItems(rows, requests[..n], now, i);
      forall e | Failure(i, e) in UpdateAll(rows, requests, now).failures
        ensures Failure(i, e) in s.failures
      {
      }
    } else {
      forall e | Failure(i, e) in s.failures
        ensures false
      {
      }
      if UpdateSucceeds(rows.Keys, requests[i]) {
        assert UpdateAll(rows, requests, now).failures == s.failures;
      }
    }
  }

  /** With rollback, a row whose every item fails keeps its contents. */
  lemma {:induction false} UpdateAllKeepsRowsOfFailedItems(rows: map<int, Transaction>, requests: seq<UpdateRequest>,
                                                           now: Timestamp, k: int)
    requires k in rows
    requires forall i :: 0 <= i < |requests| && requests[i].id == Some(k) ==> !UpdateSucceeds(rows.Keys, requests[i])
    ensures UpdateAll(rows, requests, now).rows[k] == rows[k]
  {
    if requests != [] {
      var n := |requests| - 1;
      assert forall i :: 0 <= i < n ==> requests[..n][i] == requests[i];
      UpdateAllKeepsRowsOfFailedItems(rows, requests[..n], now, k);
    }
  }

  /**
   * As written, a failed item still changes its row: item 0 renames row 1
   * but has no date, item 1 updates row 2 and commits; row 1 ends up renamed
   * although its only item failed.
   */
  lemma AsWrittenCommitsFailedItem()
    ensures var row1 := Transaction(1, "Rent", "May", 500, Some(1), Some(2), 3, 3);
            var row2 := Transaction(2, "Food", "Shop", 20, Some(1), Some(3), 4, 4);
            var rows := map[1 := row1, 2 := row2];
            var requests := [UpdateRequest(Some(1), Some("Gone"), None, None, None, None, None),
                             UpdateRequest(Some(2), None, None, Some(25), None, None, Some(Iso(5)))];
            && !UpdateSucceeds(rows.Keys, requests[0])
            && UpdateAllAsWritten(rows, requests, 9).committed[1].name == "Gone"
            && UpdateAll(rows, requests, 9).rows[1] == row1
  {
    var row1 := Transaction(1, "Rent", "May", 500, Some(1), Some(2), 3, 3);
    var row2 := Transaction(2, "Food", "Shop", 20, Some(1), Some(3), 4, 4);
    var rows := map[1 := row1, 2 := row2];
    var requests := [UpdateRequest(Some(1), Some("Gone"), None, None, None, None, None),
                     UpdateRequest(Some(2), None, None, Some(25), None, None, Some(Iso(5)))];
    assert requests[..1][..0] == [];
    assert requests[..1] == [requests[0]];
    UpdateAllKeepsRowsOfFailedItems(rows, requests, 9, 1);
  }

  // =====================================================================
  // remove_transactions

  /** A remove batch: each id found is deleted and committed; an id not found is reported under the id. */
  function RemoveAll(rows: map<int, Transaction>, ids: seq<int>): (s: BatchState)
    ensures s.rows.Keys <= rows.Keys
    ensures forall k :: k in s.rows ==> s.rows[k] == rows[k]
    ensures forall f :: f in s.failures ==> f.key in ids && f.error == NoRowFound
  {
    if ids == [] then BatchState(rows, [])
    else
      var n := |ids| - 1;
      var s := RemoveAll(rows, ids[..n]);
      if ids[n] in s.rows then BatchState(s.rows - {ids[n]}, s.failures)
      else BatchState(s.rows, s.failures + [Failure(ids[n], NoRowFound)])
  }

  method RemoveTransactions(db: Db, transactionIds: seq<int>) returns (message: string)
    requires db.Valid()
    modifies db`transactions
    ensures db.Valid()
    ensures db.transactions == RemoveAll(old(db.transactions), transactionIds).rows
    ensures message == BatchMessage(RemoveAll(old(db.transactions), transactionIds).failures)
  {
    var problemTransactions: seq<Failure> := [];
    for i := 0 to |transactionIds|
      invariant BatchState(db.transactions, problemTransactions) == RemoveAll(old(db.transactions), transactionIds[..i])
      invariant db.Valid()
    {
      assert transactionIds[..i + 1][..i] == transactionIds[..i];
      var transactionId := transactionIds[i];
      if transactionId in db.transactions {   // exactly one row has the id
        db.transactions := db.transactions - {transactionId};   // deleted and committed
      } else {
        problemTransactions := problemTransactions + [Failure(transactionId, NoRowFound)];
      }
    }
    assert transactionIds[..|transactionIds|] == transactionIds;
    message := BuildMessage(problemTransactions);
  }

  /** Afterwards exactly the listed ids are gone and every other row is untouched. */
  lemma {:induction false} RemoveAllDeletesExactlyTheIds(rows: map<int, Transaction>, ids: seq<int>, k: int)
    ensures k in RemoveAll(rows, ids).rows <==> k in rows && k !in ids
  {
    if ids != [] {
      var n := |ids| - 1;
      RemoveAllDeletesExactlyTheIds(rows, ids[..n], k);
      assert ids == ids[..n] + [ids[n]];
    }
  }

  /** Every listed id that was never in the table is reported, keyed by the id. */
  lemma {:induction false} RemoveReportsMissingIds(rows: map<int, Transaction>, ids: seq<int>, k: int)
    requires k in ids && k !in rows
    ensures Failure(k, NoRowFound) in RemoveAll(rows, ids).failures
  {
    var n := |ids| - 1;
    if k in ids[..n] {
      RemoveReportsMissingIds(rows, ids[..n], k);
    } else {
      assert ids == ids[..n] + [ids[n]];
    }
  }

  /** A listed id is reported exactly when it was already gone: never in the table, or listed twice. */
  lemma {:induction false} RemoveReportsExactly(rows: map<int, Transaction>, ids: seq<int>, i: int)
    requires 0 <= i < |ids|
    ensures ids[i] !in RemoveAll(rows, ids[..i]).rows <==> ids[i] !in rows || ids[i] in ids[..i]
    ensures RemoveAll(rows, ids[..i + 1]).failures
         == RemoveAll(rows, ids[..i]).failures
            + (if ids[i] !in rows || ids[i] in ids[..i] then [Failure(ids[i], NoRowFound)] else [])
  {
    RemoveAllDeletesExactlyTheIds(rows, ids[..i], ids[i]);
    assert ids[..i + 1][..i] == ids[..i];
  }
}
