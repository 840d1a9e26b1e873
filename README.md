# Budget book ledger — a verified model

This project models the core of the budget-book backend, a double-entry
personal-finance ledger. Every transaction moves an amount from a credit
account to a debit account. A transaction missing one of its sides is
"uncategorised". The model covers:

- the **balance engine** of an account (`models/account.py`): the net
  change of its balance over a date window, its uncategorised
  transactions, and the date it was last updated;
- the **transaction services**: the listing of an account's transactions,
  filtered by categorisation, and the four batch services (add,
  categorise, update, remove). Each batch processes its items one by one
  and reports the failed items in a single message;
- the **account services**:
  - creating an account, with its account type found or created by label;
  - the balances of a list of accounts;
  - editing and deleting an account;
  - the net-change report by account group;
- `dict_to_json`, which turns a column table into a list of row objects;
- the default database tables and the type-name lookup they are built with;
- the partial-dictionary comparisons the test suite checks responses with.

The database is the class `Store.Db`. It holds one map per table, from
primary key to row, and the next id each table hands out. A table scan
returns rows in ascending id order. Amounts are integer cents. Points in
time are natural numbers, 0 being the earliest datetime the program uses
(0001-01-01). "Now" is a parameter wherever the program reads the clock.

Modules and files:

| file | module | models |
|---|---|---|
| option.dfy | Wrappers | `Option` |
| models.dfy | Models | the three table rows |
| store.dfy | Store | the database and its table scans |
| account.dfy | AccountModel | `Account.balance`, `uncategorized_transactions`, `last_updated` |
| messages.dfy | BatchMessages | per-item errors and the batch message |
| transaction_services.dfy | TransactionServices | `transactions/transaction_services.py` |
| account_services.dfy | AccountServices | `accounts/account_services.py` |
| utils.dfy | Utils | `dict_to_json` |
| default_database.dfy | DefaultDatabase | `account_type_name_to_id`, `DEFAULT_ACCOUNT_TYPES`, `DEFAULT_ACCOUNTS` |
| testing_utils.dfy | TestingUtils | `partial_dict_match`, `partial_dict_list_match` |

Where the code and its tests disagree, the model follows the code:

- `update_transactions` reads the key `"id"`, while the tests send `"transaction_id"`.
- The error texts the tests expect ("Missing key 'transaction_id'.", "… could not be found.") are not the texts the code produces.
- `account_type.py` declares the group column as `group`, while the account services use `group_name`. The model keeps the column `group`. The two services that use `group_name` are modelled both as written and as intended (see Findings).

## Model

| member | source | states |
|---|---|---|
| AccountModel.Contribution | budget_book_backend/models/account.py:73-83 | A transaction missing a side adds 0. A transaction outside the inclusive window [start, end] adds 0. A categorised in-window transaction adds its amount. |
| AccountModel.SumIsTotalOfCounted | budget_book_backend/models/account.py:85-89 | The sum of contributions equals the total amount of the counted (categorised, in-window) transactions. |
| AccountModel.Counted | budget_book_backend/models/account.py:73-83 | Holds exactly the transactions of the list that are categorised and inside the window. |
| AccountModel.BalanceIsCountedCreditsMinusDebits | budget_book_backend/models/account.py:32-94 | `Balance` is the total of the counted (categorised, in-window) credits minus that of the counted debits, times -1 when debits increase the account, so `debit_inc` exactly negates it. |
| AccountModel.NothingCountedMeansZeroBalance | budget_book_backend/models/account.py:85-94 | With no categorised transaction inside the window, the balance is 0. |
| AccountModel.PendingIn | budget_book_backend/models/account.py:119-142 | Holds exactly the in-window transactions of one list that miss a side. |
| AccountModel.Uncategorized | budget_book_backend/models/account.py:96-148 | A transaction is listed iff it is one of the account's credit or debit transactions, is in the window, and misses a side. The list is no longer than the two lists together. |
| AccountModel.PendingInKeepsOrder | budget_book_backend/models/account.py:144-146 | Selection distributes over concatenation, so credit matches come first, then debit matches, each in original order. |
| AccountModel.CountedAndPendingPartitionWindow | budget_book_backend/models/account.py:73-77 | The in-window transactions are, as a multiset, exactly the counted ones plus the uncategorised ones. |
| AccountModel.CountedXorListed | budget_book_backend/models/account.py:137-140 | An in-window transaction of the account is counted by the balance iff it is not listed as uncategorised. |
| AccountModel.LatestDate | budget_book_backend/models/account.py:170-178 | The latest date is at least every date of the list and is the date of one of its transactions. |
| AccountModel.LastUpdated | budget_book_backend/models/account.py:161-180 | With no transactions the result is "now". Otherwise it is at least every transaction date of both lists and equals one of them. |
| BatchMessages.NatToStringRoundTrip | budget_book_backend/transactions/transaction_services.py:116 | Reading back the decimal digits of a key gives the key. |
| BatchMessages.IntToString | budget_book_backend/transactions/transaction_services.py:116 | The rendering of a key is non-empty, starts with '-' iff the key is negative, and has no line break. |
| BatchMessages.BatchMessage | budget_book_backend/transactions/transaction_services.py:108-118 | The message is "SUCCESS" iff no item failed. Otherwise it starts with the header line. |
| BatchMessages.SingleFailureMessage | budget_book_backend/transactions/transaction_services.py:110-116 | A single failure gives the header followed by exactly that failure's "\n{key}: {error}" line. |
| BatchMessages.BuildMessage | budget_book_backend/transactions/transaction_services.py:108-118 | The loop builds "SUCCESS" when nothing failed, otherwise the header and one "\n{key}: {error}" line per failure, in order. |
| BatchMessages.MessageExtends | budget_book_backend/transactions/transaction_services.py:115-116 | One more failure appends exactly its own line to the message. |
| BatchMessages.OneLinePerFailure | budget_book_backend/transactions/transaction_services.py:110-116 | When no error text spans lines, the message has exactly one line break per failure. |
| BatchMessages.DescriptionsAreSingleLine | budget_book_backend/transactions/transaction_services.py:102-103 | No error text the services report spans lines. |
| TransactionServices.Render | budget_book_backend/transactions/transaction_services.py:64 | A missing side is rendered as "undefined", and a set side as its id. |
| TransactionServices.GetTransactionsByAccount | budget_book_backend/transactions/transaction_services.py:9-66 | An empty id list lists nothing. Every record names a requested account on a side. "uncategorized" lists only records with an "undefined" side, "categorized" only records with both sides. Every stored row naming an account and passing the filter is listed. |
| TransactionServices.TransactionsByAccount | budget_book_backend/transactions/transaction_services.py:29-63 | Every listed record comes from a row that names one of the accounts and passes the filter. Every such row is listed. |
| TransactionServices.ListedRecordsNameTheAccounts | budget_book_backend/transactions/transaction_services.py:29-64 | Every listed record names a requested account on one side. A side is "undefined" exactly when the row's side is missing. |
| TransactionServices.CategorizationFiltersPartition | budget_book_backend/transactions/transaction_services.py:45-63 | As multisets, the "uncategorized" listing plus the "categorized" listing equals the unfiltered listing. |
| TransactionServices.NewTransaction | budget_book_backend/transactions/transaction_services.py:89-103 | An item fails iff it lacks name, description, amount or transaction_date, or its date is malformed. Otherwise the row takes the given name, description, amount and sides, the parsed date and "now" as entry time. |
| TransactionServices.AddFailures | budget_book_backend/transactions/transaction_services.py:87-103 | Failures are keyed by item position and listed in increasing position. |
| TransactionServices.AddNewTransactions | budget_book_backend/transactions/transaction_services.py:69-118 | Every buildable item is inserted, in order, under consecutive new ids. The message reports exactly the failed items. |
| TransactionServices.AddReportsExactlyTheBadItems | budget_book_backend/transactions/transaction_services.py:87-103 | Item i is reported with error e iff building it raises e. |
| TransactionServices.AddStoresOrReportsEveryItem | budget_book_backend/transactions/transaction_services.py:87-106 | The stored items plus the reported items account for every item of the batch. |
| TransactionServices.AddStoresEveryGoodItem | budget_book_backend/transactions/transaction_services.py:87-106 | A buildable item is stored even when other items of the batch fail. |
| TransactionServices.PersistedRows | budget_book_backend/transactions/transaction_services.py:105-106 | The insert keeps every old row. It stores the j-th new row under id next + j and adds nothing else. |
| TransactionServices.AddSucceedsIff | budget_book_backend/transactions/transaction_services.py:108-118 | The add batch says "SUCCESS" iff every item can be built. |
| TransactionServices.CategoryIdValue | budget_book_backend/transactions/transaction_services.py:147-150 | `int(category_id)` succeeds iff the key is present and holds an integer literal. |
| TransactionServices.Categorized | budget_book_backend/transactions/transaction_services.py:140-150 | An item fails iff its key lookups fail, its category id is not an integer, or no row has its id. On success only the chosen side of that row changes. |
| TransactionServices.CategorizeAll | budget_book_backend/transactions/transaction_services.py:138-154 | The batch keeps the table's ids. Failures are keyed by position, in increasing order. |
| TransactionServices.CategorizeTransactions | budget_book_backend/transactions/transaction_services.py:121-166 | The loop leaves the table CategorizeAll gives, and its message reports CategorizeAll's failures. |
| TransactionServices.CategorizeReportsExactlyTheBadItems | budget_book_backend/transactions/transaction_services.py:138-154 | Item i is reported iff it fails on the table's ids. Earlier items do not change whether it fails. |
| TransactionServices.CategorizeSetsOneSide | budget_book_backend/transactions/transaction_services.py:146-150 | "debit" sets only the debit side, and any other value only the credit side. All other fields stay. |
| TransactionServices.CategorizeLeavesOtherRows | budget_book_backend/transactions/transaction_services.py:138-154 | A row that no successful item names keeps its contents. |
| TransactionServices.CategorizeKeepsCommittedRow | budget_book_backend/transactions/transaction_services.py:137-155 | Earlier items stay committed: a row that item j categorises and no later successful item names ends the batch with the value item j gave it. |
| TransactionServices.UpdateOne | budget_book_backend/transactions/transaction_services.py:187-210 | An item succeeds iff it has an id naming a row and a well-formed date. It touches only that row and keeps the table's ids. |
| TransactionServices.UpdateReplacesOnlyTruthyFields | budget_book_backend/transactions/transaction_services.py:193-210 | Name, description, amount and both sides are replaced only by truthy values. The date is replaced, and the entry time becomes "now". |
| TransactionServices.UpdateOneKeepsIds | budget_book_backend/transactions/transaction_services.py:187-210 | Every row keeps its own id through an update. |
| TransactionServices.UpdateAllAsWritten | budget_book_backend/transactions/transaction_services.py:185-215 | The as-written batch keeps the table's ids. Failures are keyed by position, in increasing order. |
| TransactionServices.AsWrittenLeavesUnnamedRows | budget_book_backend/transactions/transaction_services.py:185-215 | As written, a row that no item names keeps its contents, in the session and in the database. |
| TransactionServices.AsWrittenKeepsLastUpdate | budget_book_backend/transactions/transaction_services.py:185-215 | As written, a row whose last naming item succeeds ends with the value that item's assignments gave it, in the session and in the database. |
| TransactionServices.UpdateTransactions | budget_book_backend/transactions/transaction_services.py:169-227 | The loop commits what UpdateAllAsWritten commits and reports its failures. |
| TransactionServices.UpdateInSession | budget_book_backend/transactions/transaction_services.py:187-210 | The body of one iteration gives the same view and error as UpdateOne. |
| TransactionServices.UpdateReadingsReportAlike | budget_book_backend/transactions/transaction_services.py:214-215 | The as-written and the rolled-back batches report the same failures. |
| TransactionServices.UpdateReportsExactlyTheBadItems | budget_book_backend/transactions/transaction_services.py:185-215 | Item i is reported iff it does not update its row. |
| TransactionServices.UpdateAll | budget_book_backend/transactions/transaction_services.py:185-215 | The batch with rollback keeps the table's ids. Failures are keyed by position. |
| TransactionServices.UpdateAllKeepsRowsOfFailedItems | budget_book_backend/transactions/transaction_services.py:185-215 | With rollback, a row whose every item fails keeps its contents. |
| TransactionServices.AsWrittenCommitsFailedItem | budget_book_backend/transactions/transaction_services.py:193-212 | As written, a row whose only item failed is committed renamed by a later successful item. |
| TransactionServices.RemoveAll | budget_book_backend/transactions/transaction_services.py:247-259 | Only rows are removed, and the rest keep their contents. Every failure is keyed by a listed id and says no row was found. |
| TransactionServices.RemoveTransactions | budget_book_backend/transactions/transaction_services.py:230-271 | The loop leaves the table RemoveAll gives, and its message reports RemoveAll's failures. |
| TransactionServices.RemoveAllDeletesExactlyTheIds | budget_book_backend/transactions/transaction_services.py:247-257 | Afterwards a row remains iff it was there and is not listed. |
| TransactionServices.RemoveReportsMissingIds | budget_book_backend/transactions/transaction_services.py:249-259 | A listed id that was never in the table is reported under the id itself. |
| TransactionServices.RemoveReportsExactly | budget_book_backend/transactions/transaction_services.py:247-259 | A listed id fails iff it was never in the table or was listed earlier. Processing it appends exactly one failure for it in that case and none otherwise. |
| AccountServices.FirstTypeNamed | budget_book_backend/accounts/account_services.py:123-127 | `.first()` returns a type with the label, and returns nothing iff no type has it. |
| AccountServices.ResolveAccountType | budget_book_backend/accounts/account_services.py:121-151 | A type id other than -1 is used as given. The -1 case is ResolveByLabel. The table stays well keyed. |
| AccountServices.ResolveByLabel | budget_book_backend/accounts/account_services.py:122-151 | The resolved type has the label. An existing type leaves the table unchanged. Otherwise one type with the label and group "Misc." is added under the next id. |
| AccountServices.ClassAttribute | budget_book_backend/models/account_type.py:14-16 | `AccountType.<attr>` exists iff the class declares it: the columns `id`, `name`, `group` and the `accts` backref (account.py:22-26). So `group_name` is not an attribute of the mapped class and raises AttributeError. |
| AccountServices.ConstructAccountType | budget_book_backend/models/account_type.py:14-16 | The constructor raises TypeError iff the extra keyword names no attribute of the class, so `group_name=` raises. With `group=` it builds the row with that group. |
| AccountServices.ResolveAccountTypeAsWritten | budget_book_backend/accounts/account_services.py:121-151 | As written, resolution raises TypeError on "group_name" iff the id is -1 and no type has the label. Otherwise it agrees with ResolveAccountType. |
| AccountServices.AddNewAccountToDbAsWritten | budget_book_backend/accounts/account_services.py:117-175 | As written, the request gets the error response with nothing stored iff the id is -1 and no type has the label. Otherwise it is served as by AddNewAccountToDb. |
| AccountServices.AsWrittenCannotCreateType | budget_book_backend/accounts/account_services.py:130-133 | On an empty type table, id -1 with label "Travel" raises as written. The intended resolution creates "Travel" in group "Misc." with id 1. |
| AccountServices.AddNewAccountToDb | budget_book_backend/accounts/account_services.py:94-175 | The account is stored under the next id with the resolved type, and SUCCESS returns its name and id. |
| AccountServices.ResolvingKeepsTypeNamesUnique | budget_book_backend/accounts/account_services.py:122-151 | If type names were unique, they stay unique. |
| AccountServices.ResolvingTwiceCreatesOnce | budget_book_backend/accounts/account_services.py:122-151 | Resolving the same label again creates nothing and gives the same type id. |
| AccountServices.AccountBalances | budget_book_backend/accounts/account_services.py:178-203 | The keys are exactly the listed ids that exist. Each value is that account's balance from the earliest date. |
| AccountServices.EditedAccounts | budget_book_backend/accounts/account_services.py:220-239 | It raises iff a key is missing or the id is not found. An empty name returns ERROR and changes nothing. Otherwise it sets exactly name, type id and debit_inc. |
| AccountServices.UpdateAccountInfo | budget_book_backend/accounts/account_services.py:206-239 | The method does what EditedAccounts specifies. |
| AccountServices.Unlinked | budget_book_backend/accounts/account_services.py:259-261 | The side naming the deleted account becomes NULL. Every other field stays. |
| AccountServices.Detached | budget_book_backend/accounts/account_services.py:259-261 | Every transaction is kept, with its link to the account cleared. |
| AccountServices.DeleteAccount | budget_book_backend/accounts/account_services.py:242-263 | A missing id raises and changes nothing. Otherwise the account is removed, its transactions are detached, and SUCCESS is returned. |
| AccountServices.DeletionUncategorizesItsTransactions | budget_book_backend/accounts/account_services.py:259-261 | After deletion no transaction names the account. One that did is now uncategorised, and others are unchanged. |
| AccountServices.ExpandedDates | budget_book_backend/accounts/account_services.py:295-296 | A single date d becomes (earliest, d). Other lists are kept. |
| AccountServices.NetChanges | budget_book_backend/accounts/account_services.py:339-346 | The values exist iff the dates pair up. There is one value per pair, each being balance × (-1)^debit_inc over that window. |
| AccountServices.NetChangeIgnoresDebitInc | budget_book_backend/accounts/account_services.py:344 | Each value is counted credits minus counted debits whatever debit_inc is. |
| AccountServices.Put | budget_book_backend/accounts/account_services.py:337-339 | `setdefault` then assignment adds exactly one entry and keeps the others. |
| AccountServices.SelectedAccounts | budget_book_backend/accounts/account_services.py:307-325 | Holds exactly the accounts whose type lies in a requested group. |
| AccountServices.EmptyGroups | budget_book_backend/accounts/account_services.py:303-304 | Every requested group is a key with an empty entry. |
| AccountServices.FileNetChanges | budget_book_backend/accounts/account_services.py:333-346 | The loop raises iff the dates do not pair up and some account is selected. Otherwise every account is filed under its group, type and name, and every entry holds a filed account's net changes. |
| AccountServices.AccountNetChangesByGroupAsWritten | budget_book_backend/accounts/account_services.py:306-311 | As written, every call raises AttributeError on "group_name". |
| AccountServices.AccountNetChangesByGroup | budget_book_backend/accounts/account_services.py:266-348 | The report holds the expanded dates and every requested group. Each selected account's net changes are filed under it. Unpaired dates with a selected account raise an index error. |
| Utils.DictToJson | budget_book_backend/utils/utils.py:28-35 | One row per id of the index, in order. Each row has exactly the columns, with row j's value for k being column k at id j. |
| Utils.TransposeRoundTrip | budget_book_backend/utils/utils.py:28-35 | Turning the rows back into columns gives the table restricted to the index, so nothing is lost. |
| DefaultDatabase.IdOfName | budget_book_backend/models/databases/default_database.py:14-31 | The result is -1 iff no entry has the name. Otherwise it is 1 + the position of the first entry with the name. |
| DefaultDatabase.AccountTypeNameToId | budget_book_backend/models/databases/default_database.py:27-31 | The scan returns -1 iff no default type has the name. Otherwise it returns an id in 1..10 of the first type with the name. |
| DefaultDatabase.LookupIsInjective | budget_book_backend/models/databases/default_database.py:14-31 | Two names resolving to the same id other than -1 are equal. |
| DefaultDatabase.DefaultTypeNamesDistinct | budget_book_backend/models/databases/default_database.py:34-45 | No two default account types share a name. |
| DefaultDatabase.LookupFindsEveryDefaultType | budget_book_backend/models/databases/default_database.py:27-45 | Each default type's name resolves to its own position + 1. |
| DefaultDatabase.DefaultAccountResolves | budget_book_backend/models/databases/default_database.py:47-88 | Each default account gets the id of the type its entry names. |
| DefaultDatabase.DefaultAccounts | budget_book_backend/models/databases/default_database.py:47-88 | The eight accounts in list order, each with its name, its debit flag and the id its type name resolves to. |
| DefaultDatabase.DefaultAccountsHaveTypes | budget_book_backend/models/databases/default_database.py:47-88 | No default account has the id -1: each refers to one of the default types. |
| TestingUtils.PartialMatchIsItemSubset | tests/testing_utils.py:33-40 | A partial match holds iff the key-value pairs of the first dict are a subset of the second's. |
| TestingUtils.MissingKeyFails | tests/testing_utils.py:34-35 | A key the target lacks makes the match false. |
| TestingUtils.DifferentValueFails | tests/testing_utils.py:37-38 | A differing value makes the match false. |
| TestingUtils.EmptyMatchesAnything | tests/testing_utils.py:33-40 | The empty dict matches every target. |
| TestingUtils.MatchIsReflexive | tests/testing_utils.py:33-40 | Every dict matches itself. |
| TestingUtils.MatchIsTransitive | tests/testing_utils.py:6-7 | If a matches b and b matches c, then a matches c. |
| TestingUtils.MatchIsAntisymmetric | tests/testing_utils.py:6-7 | Two dicts that match each other are equal. |
| TestingUtils.LargerDoesNotMatchSmaller | tests/testing_utils.py:31 | A strict extension of a dict does not match that dict. |
| TestingUtils.MatchExtends | tests/testing_utils.py:33-40 | Adding a key with the target's value keeps a match. |
| TestingUtils.DocumentedExamples | tests/testing_utils.py:23-31 | The four documented examples give True, False, False and False. |
| TestingUtils.EmptyListMatchesAnything | tests/testing_utils.py:67-76 | An empty list of expectations is matched by any list. |
| TestingUtils.NothingMatchesInEmptyList | tests/testing_utils.py:67-74 | A non-empty list of expectations is never matched by an empty list. |
| TestingUtils.ListMatchIsReflexive | tests/testing_utils.py:67-76 | Every list matches itself. |
| TestingUtils.ListMatchSplits | tests/testing_utils.py:67-76 | A list matches iff its head matches and its tail matches. |
| TestingUtils.ListMatchGrows | tests/testing_utils.py:67-76 | A longer target list keeps every match. |
| TestingUtils.ListMatchIsTransitive | tests/testing_utils.py:67-76 | List matches chain from a through b to c. |

## Left out

- HTTP routes and resources: they only parse requests and choose status codes.
- `get_accounts_by_type`: it is built on a pandas data frame and a raw SQL string.
- Database setup and seeding (`setup_default_db`, the session machinery): the store is abstract maps.
- The clock: "now" is a parameter. The default `end_date` of `balance` is a parameter `defaultEnd` of `AccountBalances`. The default `date_ranges` of `account_net_changes_by_group` (today's date) is not modelled; callers pass the dates.
- Floating point: amounts are integer cents, so rounding to two places is the identity.
- Date parsing: `fromisoformat` is abstracted to `DateInput = Iso(at) | Malformed`. `strptime` in the net-change report is not modelled, so report dates arrive already parsed.
- Exception texts: errors are tags (`ItemError`, `ServiceError`). Only the `KeyError` text `'key'` follows Python exactly.
- `TransactionServices.GetTransactionsByAccount`: pandas' conversion of ids to floats and the SQL text are not modelled. An empty id list gives an empty listing.
- `TransactionServices.Render`: `fillna("undefined")` rewrites a NULL in any column of the listing. Only the two sides can be NULL in the model, so only they are rewritten.
- Request values: a request field is `Option`, where `None` is a missing key. A key sent with the JSON value null is not expressible. For example, `"name": null` in `add_new_transactions` is stored as a NULL name and not reported, and `update_account_info` treats a null name like a blank one.
- `Utils.DictToJson`: each row object is a `map`. The column order that Python's dict keeps is not represented.
- `AccountServices.ExpandedDates`: `date_ranges.insert(0, …)` mutates the caller's list. When the default is used it mutates the shared default, so later calls start from "0001-01-1" too. The model returns a new sequence and leaves the argument unchanged.
- `AccountServices.AddNewAccountToDb`: it models the intended behaviour, where the type created on demand gets the group "Misc.". As written that path raises, which is modelled by `AddNewAccountToDbAsWritten` (see Findings). Its other steps cannot raise on the abstract store, since SQLite does not enforce foreign keys by default. The text of the caught exception is a `ServiceError` tag.
- `AccountServices.AccountNetChangesByGroup`: a group named "dates" or "message" would overwrite those keys in the original dict. The report here keeps them apart.
- `AccountServices.AccountNetChangesByGroup`: the `is None` checks on the query results are never true for `.all()`, so they are not modelled.
- `AccountServices.DeleteAccount`: the clearing of the deleted account's side in its transactions follows the relationships' default behaviour on delete. That behaviour is performed by the mapper, not by code in the repository.
- Id reuse: SQLite may hand the id of a deleted last row out again. The store always hands out the next unused id.
- Account-type name uniqueness is a database constraint. It is stated as the predicate `UniqueTypeNames` and preserved by `ResolvingKeepsTypeNamesUnique`.
- `AccountServices.FileNetChanges`: when two selected accounts share a group, a type name and an account name, the dict keeps the values of the last one. The contract states only that the entry holds the net changes of one of them. Account names are not unique in the table.
- `AccountServices.ClassAttribute`: the attributes the declarative base supplies (`metadata`, `registry`, `__table__`, methods) are not in `AccountTypeAttributes`. None of them is named `group_name`, so the two findings below do not depend on them.
- `endpoint_error_wrapper`: it only turns exceptions into HTTP 500 responses.

## Findings

| source | as written | input that shows it | evidently intended | confidence | as-written member | corrected member |
|---|---|---|---|---|---|---|
| budget_book_backend/transactions/transaction_services.py:193-215 | A failed update item is not rolled back. Its field assignments stay in the session, and the next successful item's commit writes them to the database. | Table {1: "Rent", 2: "Food"}. Item 0 renames row 1 to "Gone" and has no date, so it fails. Item 1 updates row 2 with a valid date. Row 1 is committed as "Gone" although its item was reported as failed. | A failed item leaves its row unchanged. | not executed | TransactionServices.AsWrittenCommitsFailedItem | TransactionServices.UpdateAllKeepsRowsOfFailedItems |
| budget_book_backend/accounts/account_services.py:130-133 | A type created for an unknown label is built with the keyword `group_name`. The model declares only `group` (account_type.py:16), so the constructor raises TypeError. The except branch returns the error response, and nothing is stored. | Empty type table, `account_type_id` -1, label "Travel". | The type "Travel" is created in group "Misc." and the account is posted with it. | not executed | AccountServices.AsWrittenCannotCreateType | AccountServices.ResolveByLabel |
| budget_book_backend/accounts/account_services.py:306-311 | The account-type query filters on `AccountType.group_name`, an attribute the class does not have, so every call raises AttributeError (line 334 reads the same attribute). | Any groups and dates. | Accounts are selected by the type's `group` and their net changes are filed under it. | not executed | AccountServices.AccountNetChangesByGroupAsWritten | AccountServices.AccountNetChangesByGroup |
