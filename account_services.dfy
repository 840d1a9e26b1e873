/**
 * The account services: creating an account (with an account type looked
 * up or created by label), the balances of a list of accounts, editing and
 * deleting an account, and the net-change report by account group.
 */
module AccountServices {
  import opened Wrappers
  import opened Models
  import opened Store
  import opened AccountModel

  /** An exception the service lets escape to its caller. */
  datatype ServiceError =
    | MissingKey(key: string)      // KeyError on the request dict
    | AccountNotFound(id: int)     // "Account with ID {id} cannot be found."
    | DateIndexOutOfRange          // IndexError: a date window without its end date
    | InvalidKeyword(key: string)  // TypeError: the ORM constructor got a keyword that is no column
    | UnknownAttribute(attr: string) // AttributeError: the ORM class has no such attribute

  /** What a service does: return a value, or raise. */
  datatype Raises<T> = Returns(value: T) | Raises(error: ServiceError)

  /** The {"message": ...} dicts the services return. */
  datatype Response = Success | Error(error: string)

  const BlankNameError: string := "Account name " + "cannot be blank."

  // =====================================================================
  // an account's transactions and balance

  /** The account's credit transactions (its `credit_transactions` list). */
  function CreditTransactions(db: Db, accountId: int): seq<Transaction>
    reads db
  {
    CreditsOf(db.TransactionRows(), accountId)
  }

  /** The account's debit transactions (its `debit_transactions` list). */
  function DebitTransactions(db: Db, accountId: int): seq<Transaction>
    reads db
  {
    DebitsOf(db.TransactionRows(), accountId)
  }

  /** `account.balance(start, end)` of a stored account. */
  function AccountBalance(db: Db, accountId: int, start: Timestamp, end: Timestamp): int
    reads db
    requires accountId in db.accounts
  {
    Balance(CreditTransactions(db, accountId), DebitTransactions(db, accountId),
            db.accounts[accountId].debitInc, start, end)
  }

  // =====================================================================
  // add_new_account_to_db

  /** The account-type id that asks for the type to be found or created by label. */
  const NewTypeMarker: int := -1

  /** The group a type created on demand is put in. */
  const MiscGroup: string := "Misc."

  /**
   * The SUCCESS response (the account's name and its new id), or the
   * "There was a problem posting the new account." response with the
   * exception that was caught.
   */
  datatype AddAccountResponse = Posted(accountName: string, accountId: int) | PostingProblem(serverError: ServiceError)

  // The account-type table's columns are `id`, `name` and `group`; the
  // account model adds the backref `accts` to its class. The declarative
  // constructor takes a keyword exactly when the class has an attribute of
  // that name.

  /** The column that holds an account type's group. */
  const GroupColumn: string := "group"

  /** The name the account services use for that column. */
  const GroupColumnAsWritten: string := "group_name"

  /** The attributes the mapped class declares: its three columns and the `accts` backref. */
  const AccountTypeAttributes: set<string> := {"id", "name", GroupColumn, "accts"}

  /** `AccountType.<attr>`: the attribute, or AttributeError for a name the class does not declare. */
  function ClassAttribute(attr: string): (r: Raises<string>)
    ensures r.Returns? <==> attr in AccountTypeAttributes
    ensures r.Returns? ==> r.value == attr
    ensures r.Raises? ==> r.error == UnknownAttribute(attr)
  {
    if attr in AccountTypeAttributes then Returns(attr) else Raises(UnknownAttribute(attr))
  }

  /**
   * `AccountType(name=typeName, <keyword>=value)` saved under `id`: TypeError
   * for a keyword that names no attribute; with the group column, the row
   * with that group. Any other attribute the keyword may name is not kept by
   * the model, and the row's group is then left empty.
   */
  function ConstructAccountType(id: int, typeName: string, keyword: string, value: string): (r: Raises<AccountType>)
    ensures r.Returns? <==> keyword in AccountTypeAttributes
    ensures r.Raises? ==> r.error == InvalidKeyword(keyword)
    ensures keyword == GroupColumn ==> r == Returns(AccountType(id, typeName, value))
    ensures r.Returns? ==> r.value.id == id && r.value.name == typeName
  {
    if keyword !in AccountTypeAttributes then Raises(InvalidKeyword(keyword))
    else if keyword == GroupColumn then Returns(AccountType(id, typeName, value))
    else Returns(AccountType(id, typeName, ""))
  }

  /** The first type with the label, in table order, if any. */
  function FirstTypeNamed(types: seq<AccountType>, typeLabel: string): (r: Option<AccountType>)
    ensures r.Some? ==> r.value in types && r.value.name == typeLabel
    ensures r.None? <==> forall t :: t in types ==> t.name != typeLabel
  {
    if types == [] then None
    else if types[0].name == typeLabel then Some(types[0])
    else FirstTypeNamed(types[1..], typeLabel)
  }

  /** No two account types share a name (the table's unique constraint). */
  ghost predicate UniqueTypeNames(types: map<int, AccountType>) {
    forall a, b :: a in types && b in types && types[a].name == types[b].name ==> a == b
  }

  /** The account-type table with its ids stored in their rows and below `next`. */
  ghost predicate WellKeyed(types: map<int, AccountType>, next: int) {
    KeysBelow(types, next) && forall k :: k in types ==> types[k].id == k
  }

  /** The type id an account is created with, and the account-type table afterwards. */
  datatype TypeResolution = TypeResolution(typeId: int, accountTypes: map<int, AccountType>, nextAccountTypeId: int)

  /**
   * A type id other than -1 is used as given. For -1 the first type with
   * the label is used; when there is none, one is created in group "Misc."
   * and used.
   */
  function ResolveAccountType(types: map<int, AccountType>, next: int, accountTypeId: int, typeLabel: string)
    : (r: TypeResolution)
    requires WellKeyed(types, next)
    ensures WellKeyed(r.accountTypes, r.nextAccountTypeId)
    ensures accountTypeId != NewTypeMarker ==> r == TypeResolution(accountTypeId, types, next)
    ensures accountTypeId == NewTypeMarker ==> r == ResolveByLabel(types, next, typeLabel)
  {
    if accountTypeId != NewTypeMarker then TypeResolution(accountTypeId, types, next)
    else ResolveByLabel(types, next, typeLabel)
  }

  /** The -1 case: the first type with the label, created in group "Misc." when there is none. */
  function ResolveByLabel(types: map<int, AccountType>, next: int, typeLabel: string): (r: TypeResolution)
    requires WellKeyed(types, next)
    ensures WellKeyed(r.accountTypes, r.nextAccountTypeId)
    ensures r.typeId in r.accountTypes && r.accountTypes[r.typeId].name == typeLabel
    ensures (exists k :: k in types && types[k].name == typeLabel) ==>
              r.accountTypes == types && r.nextAccountTypeId == next
    ensures (forall k :: k in types ==> types[k].name != typeLabel) ==>
              && r.typeId == next
              && r.accountTypes == types[next := AccountType(next, typeLabel, MiscGroup)]
              && r.nextAccountTypeId == next + 1
  {
    var existing := FirstTypeNamed(Scan(types, 1, next), typeLabel);
    var types', next' :=
      if existing.None? then types[next := AccountType(next, typeLabel, MiscGroup)] else types,
      if existing.None? then next + 1 else next;
    var found := FirstTypeNamed(Scan(types', 1, next'), typeLabel);
    assert next in types' ==> types'[next] in Scan(types', 1, next');
    TypeResolution(found.value.id, types', next')
  }

  method AddNewAccountToDb(db: Db, name: string, accountTypeId: int, accountTypeLabel: string, debitInc: bool)
    returns (response: AddAccountResponse)
    requires db.Valid()
    modifies db`accounts, db`nextAccountId, db`accountTypes, db`nextAccountTypeId
    ensures db.Valid()
    ensures var resolved := ResolveAccountType(old(db.accountTypes), old(db.nextAccountTypeId),
                                               accountTypeId, accountTypeLabel);
            && db.accountTypes == resolved.accountTypes
            && db.nextAccountTypeId == resolved.nextAccountTypeId
            && db.accounts == old(db.accounts)[old(db.nextAccountId) :=
                                 Account(old(db.nextAccountId), name, resolved.typeId, debitInc)]
            && db.nextAccountId == old(db.nextAccountId) + 1
    ensures response == Posted(name, old(db.nextAccountId))
  {
    var typeId := accountTypeId;
    if accountTypeId == NewTypeMarker {
      var newAccountType := FirstTypeNamed(db.AccountTypeRows(), accountTypeLabel);
      if newAccountType.None? {
        db.accountTypes := db.accountTypes[db.nextAccountTypeId :=
                             AccountType(db.nextAccountTypeId, accountTypeLabel, MiscGroup)];
        db.nextAccountTypeId := db.nextAccountTypeId + 1;
        assert db.accountTypes[db.nextAccountTypeId - 1] in db.AccountTypeRows();
      }
      // query again: the type just saved is found, so the "could not be found" exception never fires
      newAccountType := FirstTypeNamed(db.AccountTypeRows(), accountTypeLabel);
      typeId := newAccountType.value.id;
    }
    var newAcctId := db.nextAccountId;
    db.accounts := db.accounts[newAcctId := Account(newAcctId, name, typeId, debitInc)];
    db.nextAccountId := newAcctId + 1;
    response := Posted(name, newAcctId);
  }

  /**
   * The type resolution as the service writes it: the type created for an
   * unknown label is built with the keyword "group_name", which the
   * constructor rejects, so the -1 path with a new label always raises.
   */
  function ResolveAccountTypeAsWritten(types: map<int, AccountType>, next: int, accountTypeId: int, typeLabel: string)
    : (r: Raises<TypeResolution>)
    requires WellKeyed(types, next)
    ensures r.Raises? <==> accountTypeId == NewTypeMarker && forall k :: k in types ==> types[k].name != typeLabel
    ensures r.Raises? ==> r.error == InvalidKeyword(GroupColumnAsWritten)
    ensures r.Returns? ==> r.value == ResolveAccountType(types, next, accountTypeId, typeLabel)
  {
    if accountTypeId != NewTypeMarker then Returns(TypeResolution(accountTypeId, types, next))
    else if FirstTypeNamed(Scan(types, 1, next), typeLabel).Some? then Returns(ResolveByLabel(types, next, typeLabel))
    else
      assert forall k :: k in types ==> types[k] in Scan(types, 1, next);
      match ConstructAccountType(next, typeLabel, GroupColumnAsWritten, MiscGroup)
      case Raises(e) => Raises(e)
      case Returns(t) => Returns(TypeResolution(t.id, types[next := t], next + 1))
  }

  /**
   * add_new_account_to_db as written: the exception raised while creating
   * the type is caught, nothing is stored, and the error response is
   * returned; every other request is served as by AddNewAccountToDb.
   */
  method AddNewAccountToDbAsWritten(db: Db, name: string, accountTypeId: int, accountTypeLabel: string, debitInc: bool)
    returns (response: AddAccountResponse)
    requires db.Valid()
    modifies db`accounts, db`nextAccountId, db`accountTypes, db`nextAccountTypeId
    ensures db.Valid()
    ensures response.PostingProblem? <==>
              accountTypeId == NewTypeMarker
              && forall k :: k in old(db.accountTypes) ==> old(db.accountTypes)[k].name != accountTypeLabel
    ensures response.PostingProblem? ==>
              && response.serverError == InvalidKeyword(GroupColumnAsWritten)
              && unchanged(db`accounts, db`nextAccountId, db`accountTypes, db`nextAccountTypeId)
    ensures response.Posted? ==>
              var resolved := ResolveAccountType(old(db.accountTypes), old(db.nextAccountTypeId),
                                                 accountTypeId, accountTypeLabel);
              && db.accountTypes == resolved.accountTypes
              && db.nextAccountTypeId == resolved.nextAccountTypeId
              && db.accounts == old(db.accounts)[old(db.nextAccountId) :=
                                   Account(old(db.nextAccountId), name, resolved.typeId, debitInc)]
              && db.nextAccountId == old(db.nextAccountId) + 1
              && response == Posted(name, old(db.nextAccountId))
  {
    var resolved := ResolveAccountTypeAsWritten(db.accountTypes, db.nextAccountTypeId, accountTypeId, accountTypeLabel);
    if resolved.Raises? {
      return PostingProblem(resolved.error);
    }
    response := AddNewAccountToDb(db, name, accountTypeId, accountTypeLabel, debitInc);
  }

  /**
   * The discrepancy on a concrete request: on an empty type table, the
   * account type "Travel" asked for with id -1 is never created as written,
   * while the intended resolution creates it in group "Misc." with id 1.
   */
  lemma AsWrittenCannotCreateType()
    ensures ResolveAccountTypeAsWritten(map[], 1, NewTypeMarker, "Travel") == Raises(InvalidKeyword("group_name"))
    ensures ResolveAccountType(map[], 1, NewTypeMarker, "Travel")
         == TypeResolution(1, map[1 := AccountType(1, "Travel", "Misc.")], 2)
  {
    var r := ResolveAccountType(map[], 1, NewTypeMarker, "Travel");
    assert r.typeId in r.accountTypes;
  }

  /** Resolving a label creates a type only when none has it, so type names stay unique. */
  lemma ResolvingKeepsTypeNamesUnique(types: map<int, AccountType>, next: int, accountTypeId: int, typeLabel: string)
    requires WellKeyed(types, next) && UniqueTypeNames(types)
    ensures UniqueTypeNames(ResolveAccountType(types, next, accountTypeId, typeLabel).accountTypes)
  {
  }

  /**
   * Resolving the same label a second time creates nothing and gives the
   * same type: at most one type per label is ever created.
   */
  lemma ResolvingTwiceCreatesOnce(types: map<int, AccountType>, next: int, typeLabel: string)
    requires WellKeyed(types, next) && UniqueTypeNames(types)
    ensures var first := ResolveAccountType(types, next, NewTypeMarker, typeLabel);
            var second := ResolveAccountType(first.accountTypes, first.nextAccountTypeId, NewTypeMarker, typeLabel);
            second == first
  {
    var first := ResolveAccountType(types, next, NewTypeMarker, typeLabel);
    ResolvingKeepsTypeNamesUnique(types, next, NewTypeMarker, typeLabel);
    assert first.typeId in first.accountTypes;
  }

  // =====================================================================
  // account_balances

  /**
   * The balances, from the earliest date to `defaultEnd`, of the listed
   * accounts that exist; ids with no account are skipped.
   */
  method AccountBalances(db: Db, accountIds: seq<int>, defaultEnd: Timestamp) returns (idToBalance: map<int, int>)
    requires db.Valid()
    ensures idToBalance.Keys == set id | id in accountIds && id in db.accounts
    ensures forall id :: id in idToBalance ==> idToBalance[id] == AccountBalance(db, id, Earliest, defaultEnd)
  {
    idToBalance := map[];
    for i := 0 to |accountIds|
      invariant idToBalance.Keys == set id | id in accountIds[..i] && id in db.accounts
      invariant forall id :: id in idToBalance ==> idToBalance[id] == AccountBalance(db, id, Earliest, defaultEnd)
    {
      assert accountIds[..i + 1] == accountIds[..i] + [accountIds[i]];
      var id := accountIds[i];
      if id !in db.accounts {   // no account has the id
        continue;
      }
      var account := db.accounts[id];
      idToBalance := idToBalance[account.id := AccountBalance(db, id, Earliest, defaultEnd)];
    }
    assert accountIds[..|accountIds|] == accountIds;
  }

  // =====================================================================
  // update_account_info

  /** The edit request; `None` is a key the dict does not have. */
  datatype EditAccountRequest = EditAccountRequest(
    id: Option<int>,
    name: Option<string>,
    accountTypeId: Option<int>,
    debitInc: Option<bool>)

  /** The response and the accounts table after an edit that returned. */
  datatype AccountEdit = AccountEdit(response: Response, accounts: map<int, Account>)

  /** update_account_info on an accounts table. */
  function EditedAccounts(accounts: map<int, Account>, edit: EditAccountRequest): (r: Raises<AccountEdit>)
    ensures r.Raises? <==> || edit.name.None? || edit.accountTypeId.None? || edit.debitInc.None?
                           || (edit.name.value != "" && (edit.id.None? || edit.id.value !in accounts))
    ensures r.Returns? && r.value.response.Error? <==>
              edit.name.Some? && edit.accountTypeId.Some? && edit.debitInc.Some? && edit.name.value == ""
    ensures r.Returns? && r.value.response.Error? ==>
              r.value.response.error == BlankNameError && r.value.accounts == accounts
    ensures r.Returns? && r.value.response.Success? ==>
              var id, after := edit.id.value, r.value.accounts;
              && after.Keys == accounts.Keys
              && after[id].id == accounts[id].id
              && after[id].name == edit.name.value && after[id].name != ""
              && after[id].accountTypeId == edit.accountTypeId.value
              && after[id].debitInc == edit.debitInc.value
              && (forall k :: k in accounts && k != id ==> after[k] == accounts[k])
  {
    if edit.name.None? then Raises(MissingKey("name"))
    else if edit.accountTypeId.None? then Raises(MissingKey("account_type_id"))
    else if edit.debitInc.None? then Raises(MissingKey("debit_inc"))
    else if edit.name.value == "" then Returns(AccountEdit(Error(BlankNameError), accounts))
    else if edit.id.None? then Raises(MissingKey("id"))
    else if edit.id.value !in accounts then Raises(AccountNotFound(edit.id.value))
    else
      var id := edit.id.value;
      var account := accounts[id].(name := edit.name.value, accountTypeId := edit.accountTypeId.value,
                                   debitInc := edit.debitInc.value);
      Returns(AccountEdit(Success, accounts[id := account]))
  }

  method UpdateAccountInfo(db: Db, editAccount: EditAccountRequest) returns (r: Raises<Response>)
    requires db.Valid()
    modifies db`accounts
    ensures db.Valid()
    ensures var spec := EditedAccounts(old(db.accounts), editAccount);
            && r == (if spec.Raises? then Raises(spec.error) else Returns(spec.value.response))
            && db.accounts == (if spec.Raises? then old(db.accounts) else spec.value.accounts)
  {
    if editAccount.name.None? { return Raises(MissingKey("name")); }
    if editAccount.accountTypeId.None? { return Raises(MissingKey("account_type_id")); }
    if editAccount.debitInc.None? { return Raises(MissingKey("debit_inc")); }
    var newName := editAccount.name.value;
    if newName == "" {
      return Returns(Error(BlankNameError));
    }
    if editAccount.id.None? { return Raises(MissingKey("id")); }
    var id := editAccount.id.value;
    if id !in db.accounts {
      return Raises(AccountNotFound(id));
    }
    var account := db.accounts[id];
    account := account.(name := newName);
    account := account.(accountTypeId := editAccount.accountTypeId.value);
    account := account.(debitInc := editAccount.debitInc.value);
    db.accounts := db.accounts[id := account];   // the three fields are committed
    r := Returns(Success);
  }

  // =====================================================================
  // delete_account

  /** The row with the account's side cleared: a deleted account's side becomes NULL. */
  function Unlinked(t: Transaction, accountId: int): (r: Transaction)
    ensures r.id == t.id && r.name == t.name && r.description == t.description && r.amount == t.amount
    ensures r.transactionDate == t.transactionDate && r.dateEntered == t.dateEntered
    ensures r.debitAccountId == (if t.debitAccountId == Some(accountId) then None else t.debitAccountId)
    ensures r.creditAccountId == (if t.creditAccountId == Some(accountId) then None else t.creditAccountId)
  {
    t.(debitAccountId := if t.debitAccountId == Some(accountId) then None else t.debitAccountId,
       creditAccountId := if t.creditAccountId == Some(accountId) then None else t.creditAccountId)
  }

  /** The transactions table once the account's rows no longer point at it. */
  function Detached(transactions: map<int, Transaction>, accountId: int): (r: map<int, Transaction>)
    ensures r.Keys == transactions.Keys
    ensures forall k :: k in r ==> r[k] == Unlinked(transactions[k], accountId)
  {
    map k | k in transactions :: Unlinked(transactions[k], accountId)
  }

  method DeleteAccount(db: Db, deleteAccountId: int) returns (r: Raises<Response>)
    requires db.Valid()
    modifies db`accounts, db`transactions
    ensures db.Valid()
    ensures deleteAccountId !in old(db.accounts) ==>
              r == Raises(AccountNotFound(deleteAccountId))
              && db.accounts == old(db.accounts) && db.transactions == old(db.transactions)
    ensures deleteAccountId in old(db.accounts) ==>
              && r == Returns(Success)
              && db.accounts == old(db.accounts) - {deleteAccountId}
              && db.transactions == Detached(old(db.transactions), deleteAccountId)
  {
    if deleteAccountId !in db.accounts {
      return Raises(AccountNotFound(deleteAccountId));
    }
    db.accounts := db.accounts - {deleteAccountId};
    // on flush the ORM sets the account's side of its debit and credit transactions to NULL
    db.transactions := Detached(db.transactions, deleteAccountId);
    r := Returns(Success);
  }

  /**
   * After the deletion no transaction names the account; a transaction that
   * did is now uncategorised (so no balance counts it any more), and every
   * other transaction is unchanged.
   */
  lemma DeletionUncategorizesItsTransactions(transactions: map<int, Transaction>, accountId: int, k: int)
    requires k in transactions
    ensures var after := Detached(transactions, accountId)[k];
            && after.debitAccountId != Some(accountId) && after.creditAccountId != Some(accountId)
            && (transactions[k].debitAccountId == Some(accountId) || transactions[k].creditAccountId == Some(accountId)
                <==> after != transactions[k])
            && (after != transactions[k] ==> !after.IsCategorized())
  {
  }

  // =====================================================================
  // account_net_changes_by_group

  /** A single date d becomes the window from the earliest date to d. */
  function ExpandedDates(dateRanges: seq<Timestamp>): (r: seq<Timestamp>)
    ensures |dateRanges| == 1 ==> r == [Earliest, dateRanges[0]]
    ensures |dateRanges| != 1 ==> r == dateRanges
  {
    if |dateRanges| == 1 then [Earliest] + dateRanges else dateRanges
  }

  /**
   * One account's net change over each window (dates[0], dates[1]),
   * (dates[2], dates[3]), ...: its balance times (-1)**debit_inc. None when
   * the last window has no end date.
   */
  function NetChanges(credits: seq<Transaction>, debits: seq<Transaction>, debitInc: bool, dates: seq<Timestamp>)
    : (r: Option<seq<int>>)
    ensures r.Some? <==> |dates| % 2 == 0
    ensures r.Some? ==> |r.value| == |dates| / 2
    ensures r.Some? ==> forall j :: 0 <= j < |r.value| ==>
              r.value[j] == Balance(credits, debits, debitInc, dates[2 * j], dates[2 * j + 1]) * Sign(debitInc)
    decreases |dates|
  {
    if dates == [] then Some([])
    else if |dates| == 1 then None
    else
      var rest := NetChanges(credits, debits, debitInc, dates[2..]);
      if rest.None? then None
      else Some([Balance(credits, debits, debitInc, dates[0], dates[1]) * Sign(debitInc)] + rest.value)
  }

  /**
   * Each reported value is the window's counted credits minus its counted
   * debits, whatever the account's debit_inc: the (-1)**debit_inc factor
   * cancels the negation inside the balance.
   */
  lemma NetChangeIgnoresDebitInc(credits: seq<Transaction>, debits: seq<Transaction>, debitInc: bool,
                                 dates: seq<Timestamp>, j: int)
    requires |dates| % 2 == 0 && 0 <= j < |dates| / 2
    ensures NetChanges(credits, debits, debitInc, dates).value[j]
         == Total(Counted(credits, dates[2 * j], dates[2 * j + 1]))
          - Total(Counted(debits, dates[2 * j], dates[2 * j + 1]))
    ensures NetChanges(credits, debits, debitInc, dates) == NetChanges(credits, debits, !debitInc, dates)
  {
    WindowIgnoresDebitInc(credits, debits, debitInc, dates[2 * j], dates[2 * j + 1]);
    var a := NetChanges(credits, debits, debitInc, dates).value;
    var b := NetChanges(credits, debits, !debitInc, dates).value;
    forall i | 0 <= i < |a|
      ensures a[i] == b[i]
    {
      WindowIgnoresDebitInc(credits, debits, debitInc, dates[2 * i], dates[2 * i + 1]);
      WindowIgnoresDebitInc(credits, debits, !debitInc, dates[2 * i], dates[2 * i + 1]);
    }
    assert a == b;
  }

  /** One window's value: the balance times (-1)**debit_inc is counted credits minus counted debits. */
  lemma WindowIgnoresDebitInc(credits: seq<Transaction>, debits: seq<Transaction>, debitInc: bool,
                              start: Timestamp, end: Timestamp)
    ensures Balance(credits, debits, debitInc, start, end) * Sign(debitInc)
         == Total(Counted(credits, start, end)) - Total(Counted(debits, start, end))
  {
    BalanceIsCountedCreditsMinusDebits(credits, debits, debitInc, start, end);
  }

  /** group -> account type -> account name -> net changes. */
  type Groups = map<string, map<string, map<string, seq<int>>>>

  /** The report: the dates used, "SUCCESS", and one entry per requested group. */
  datatype Report = Report(dates: seq<Timestamp>, message: string, groups: Groups)

  /** The report has an entry for account `n` of type `t` in group `g`. */
  predicate Has(groups: Groups, g: string, t: string, n: string) {
    g in groups && t in groups[g] && n in groups[g][t]
  }

  /** Files `v` under group `g`, type `t` and name `n`, creating the type's entry when the group has none. */
  function Put(groups: Groups, g: string, t: string, n: string, v: seq<int>): (r: Groups)
    requires g in groups
    ensures r.Keys == groups.Keys
    ensures forall g', t', n' :: Has(r, g', t', n') <==> Has(groups, g', t', n') || (g', t', n') == (g, t, n)
    ensures Has(r, g, t, n) && r[g][t][n] == v
    ensures forall g', t', n' :: Has(groups, g', t', n') && (g', t', n') != (g, t, n) ==>
              Has(r, g', t', n') && r[g'][t'][n'] == groups[g'][t'][n']
  {
    var types := groups[g];
    var accounts := if t in types then types[t] else map[];
    groups[g := types[t := accounts[n := v]]]
  }

  /** An account whose type belongs to one of the groups. */
  predicate InGroups(db: Db, a: Account, accountGroups: seq<string>)
    reads db
  {
    a.accountTypeId in db.accountTypes && db.accountTypes[a.accountTypeId].group in accountGroups
  }

  /** The accounts of the requested groups, in table order. */
  function SelectedAccounts(accounts: seq<Account>, db: Db, accountGroups: seq<string>): (r: seq<Account>)
    reads db
    ensures forall a :: a in r <==> a in accounts && InGroups(db, a, accountGroups)
  {
    if accounts == [] then []
    else (if InGroups(db, accounts[0], accountGroups) then [accounts[0]] else [])
         + SelectedAccounts(accounts[1..], db, accountGroups)
  }

  /** An account's net changes over the dates. */
  function NetChangesOf(db: Db, a: Account, dates: seq<Timestamp>): Option<seq<int>>
    reads db
  {
    NetChanges(CreditTransactions(db, a.id), DebitTransactions(db, a.id), a.debitInc, dates)
  }

  /** The report entry an account is filed under: its group, its type's name, its name. */
  predicate FiledUnder(db: Db, a: Account, g: string, t: string, n: string)
    reads db
  {
    a.accountTypeId in db.accountTypes
    && g == db.accountTypes[a.accountTypeId].group && t == db.accountTypes[a.accountTypeId].name && n == a.name
  }

  method AccountNetChangesByGroup(db: Db, accountGroups: seq<string>, dateRanges: seq<Timestamp>)
    returns (r: Raises<Report>)
    requires db.Valid()
    ensures var accounts := SelectedAccounts(db.AccountRows(), db, accountGroups);
            r.Raises? <==> |ExpandedDates(dateRanges)| % 2 == 1 && accounts != []
    ensures r.Raises? ==> r.error == DateIndexOutOfRange
    ensures r.Returns? ==> && r.value.dates == ExpandedDates(dateRanges)
                           && r.value.message == "SUCCESS"
                           && r.value.groups.Keys == set g | g in accountGroups
    ensures r.Returns? ==> FilesEach(db, SelectedAccounts(db.AccountRows(), db, accountGroups), r.value.groups)
    ensures r.Returns? ==>
              FiledFrom(db, SelectedAccounts(db.AccountRows(), db, accountGroups), r.value.groups, ExpandedDates(dateRanges))
  {
    var dates := ExpandedDates(dateRanges);
    var groups := EmptyGroups(accountGroups);
    var accounts := SelectedAccounts(db.AccountRows(), db, accountGroups);
    var filed := FileNetChanges(db, accounts, groups, dates);
    if filed.None? {
      return Raises(DateIndexOutOfRange);
    }
    r := Returns(Report(dates, "SUCCESS", filed.value));
  }

  /**
   * account_net_changes_by_group as written: the account-type query filters
   * on the attribute "group_name", which the ORM class lacks, so every call
   * raises before any account is read.
   */
  method AccountNetChangesByGroupAsWritten(db: Db, accountGroups: seq<string>, dateRanges: seq<Timestamp>)
    returns (r: Raises<Report>)
    requires db.Valid()
    ensures r == Raises(UnknownAttribute(GroupColumnAsWritten))
  {
    var groupColumn := ClassAttribute(GroupColumnAsWritten);
    match groupColumn
    case Raises(e) =>
      r := Raises(e);
    case Returns(_) =>
      r := AccountNetChangesByGroup(db, accountGroups, dateRanges);
  }

  /**
   * The loop over the selected accounts: each one's net changes are filed
   * under its group, its type's name and its name. None when the dates
   * cannot be paired, which raises at the first account.
   */
  method FileNetChanges(db: Db, accounts: seq<Account>, groups: Groups, dates: seq<Timestamp>)
    returns (r: Option<Groups>)
    requires forall a :: a in accounts ==>
               a.accountTypeId in db.accountTypes && db.accountTypes[a.accountTypeId].group in groups
    requires forall g :: g in groups ==> groups[g] == map[]
    ensures r.None? <==> |dates| % 2 == 1 && accounts != []
    ensures r.Some? ==> r.value.Keys == groups.Keys
    ensures r.Some? ==> FilesEach(db, accounts, r.value) && FiledFrom(db, accounts, r.value, dates)
  {
    var filed := groups;
    for i := 0 to |accounts|
      invariant filed.Keys == groups.Keys
      invariant |dates| % 2 == 1 ==> i == 0
      invariant FilesEach(db, accounts[..i], filed)
      invariant FiledFrom(db, accounts[..i], filed, dates)
    {
      var account := accounts[i];
      assert account in accounts;
      var accountType := db.accountTypes[account.accountTypeId];
      var values := NetChangesOf(db, account, dates);
      if values.None? {
        return None;
      }
      assert accounts[..i + 1] == accounts[..i] + [account];
      FilingOneMore(db, accounts[..i], filed, dates, account, values.value);
      filed := Put(filed, accountType.group, accountType.name, account.name, values.value);
    }
    assert accounts[..|accounts|] == accounts;
    r := Some(filed);
  }

  /** An empty entry for every requested group. */
  method EmptyGroups(accountGroups: seq<string>) returns (groups: Groups)
    ensures groups.Keys == set g | g in accountGroups
    ensures forall g :: g in groups ==> groups[g] == map[]
  {
    groups := map[];
    for i := 0 to |accountGroups|
      invariant groups.Keys == set g | g in accountGroups[..i]
      invariant forall g :: g in groups ==> groups[g] == map[]
    {
      assert accountGroups[..i + 1] == accountGroups[..i] + [accountGroups[i]];
      groups := groups[accountGroups[i] := map[]];
    }
    assert accountGroups[..|accountGroups|] == accountGroups;
  }

  /** Every one of the accounts has its entry in the report. */
  ghost predicate FilesEach(db: Db, accounts: seq<Account>, groups: Groups)
    reads db
  {
    forall a :: a in accounts ==>
      a.accountTypeId in db.accountTypes &&
      Has(groups, db.accountTypes[a.accountTypeId].group, db.accountTypes[a.accountTypeId].name, a.name)
  }

  /** Every entry of the report holds the net changes of one of the accounts filed under it. */
  ghost predicate FiledFrom(db: Db, accounts: seq<Account>, groups: Groups, dates: seq<Timestamp>)
    reads db
  {
    forall g, t, n :: Has(groups, g, t, n) ==>
      exists a :: a in accounts && FiledUnder(db, a, g, t, n) && NetChangesOf(db, a, dates) == Some(groups[g][t][n])
  }

  lemma FilingOneMore(db: Db, accounts: seq<Account>, groups: Groups, dates: seq<Timestamp>, a: Account, v: seq<int>)
    requires FilesEach(db, accounts, groups) && FiledFrom(db, accounts, groups, dates)
    requires a.accountTypeId in db.accountTypes && db.accountTypes[a.accountTypeId].group in groups
    requires NetChangesOf(db, a, dates) == Some(v)
    ensures var ty := db.accountTypes[a.accountTypeId];
            var after := Put(groups, ty.group, ty.name, a.name, v);
            FilesEach(db, accounts + [a], after) && FiledFrom(db, accounts + [a], after, dates)
  {
    var ty := db.accountTypes[a.accountTypeId];
    var after := Put(groups, ty.group, ty.name, a.name, v);
    forall g, t, n | Has(after, g, t, n)
      ensures exists b :: b in accounts + [a] && FiledUnder(db, b, g, t, n) && NetChangesOf(db, b, dates) == Some(after[g][t][n])
    {
      if (g, t, n) == (ty.group, ty.name, a.name) {
        assert a in accounts + [a] && FiledUnder(db, a, g, t, n);
      } else {
        var b :| b in accounts && FiledUnder(db, b, g, t, n) && NetChangesOf(db, b, dates) == Some(groups[g][t][n]);
        assert b in accounts + [a];
      }
    }
  }
}
