/**
 * The default database contents: the account types and the accounts a new
 * database is seeded with, and the lookup that turns an account-type name
 * into the id the type receives when the types are inserted in list order
 * (the first gets id 1).
 */
module DefaultDatabase {

  /** An account type to seed: its name and its group. */
  datatype AccType = AccType(name: string, groupName: string)

  /** An account to seed: its name, whether debits increase it, and its type's id. */
  datatype Acc = Acc(name: string, debitInc: bool, accountTypeId: int)

  /** What the lookup returns for a name no default type has. */
  const NotFound: int := -1

  const DefaultAccountTypes: seq<AccType> := [
    AccType("Checking Account", "Assets"),
    AccType("Savings Account", "Assets"),
    AccType("Retirement Account", "Assets"),
    AccType("Credit Card", "Liabilities"),
    AccType("Loan/Mortgage", "Liabilities"),
    AccType("Recurring Expense", "Expenses"),
    AccType("Expense", "Expenses"),
    AccType("Seasonal Expense", "Expenses"),
    AccType("Income", "Income"),
    AccType("Opening Balance Equity", "Equity")
  ]

  /**
   * The id a name resolves to: 1 + the position of the first type with the
   * name, or -1 when no type has it.
   */
  function IdOfName(types: seq<AccType>, name: string): (r: int)
    ensures r == NotFound || 1 <= r <= |types|
    ensures r == NotFound <==> forall j :: 0 <= j < |types| ==> types[j].name != name
    ensures r != NotFound ==> types[r - 1].name == name
    ensures r != NotFound ==> forall j :: 0 <= j < r - 1 ==> types[j].name != name
  {
    if types == [] then NotFound
    else if types[0].name == name then 1
    else
      var rest := IdOfName(types[1..], name);
      if rest == NotFound then NotFound else rest + 1
  }

  /** The lookup the default accounts are built with. */
  function TypeIdOf(name: string): int {
    IdOfName(DefaultAccountTypes, name)
  }

  /** account_type_name_to_id: scans the default types in order and stops at the first with the name. */
  method AccountTypeNameToId(name: string) returns (id: int)
    ensures id == TypeIdOf(name)
    ensures id == NotFound <==> forall j :: 0 <= j < |DefaultAccountTypes| ==> DefaultAccountTypes[j].name != name
    ensures id != NotFound ==> 1 <= id <= |DefaultAccountTypes| && DefaultAccountTypes[id - 1].name == name
    ensures id != NotFound ==> forall j :: 0 <= j < id - 1 ==> DefaultAccountTypes[j].name != name
  {
    for idx := 0 to |DefaultAccountTypes|
      invariant forall j :: 0 <= j < idx ==> DefaultAccountTypes[j].name != name
    {
      if DefaultAccountTypes[idx].name == name {
        FirstMatchIsTheLookup(DefaultAccountTypes, name, idx);
        return idx + 1;
      }
    }
    return NotFound;
  }

  /** A name first found at position idx resolves to idx + 1. */
  lemma FirstMatchIsTheLookup(types: seq<AccType>, name: string, idx: int)
    requires 0 <= idx < |types| && types[idx].name == name
    requires forall j :: 0 <= j < idx ==> types[j].name != name
    ensures IdOfName(types, name) == idx + 1
  {
  }

  /** An account as the default list writes it: with the name of its type. */
  datatype AccSeed = AccSeed(name: string, debitInc: bool, typeName: string)

  const DefaultAccountSeeds: seq<AccSeed> := [
    AccSeed("Main Checking Account", true, "Checking Account"),
    AccSeed("Main Savings Account", true, "Savings Account"),
    AccSeed("Credit Card", false, "Credit Card"),
    AccSeed("Food & Groceries", true, "Expense"),
    AccSeed("Car Expense", true, "Expense"),
    AccSeed("Streaming Services", true, "Recurring Expense"),
    AccSeed("Paycheck", false, "Income"),
    AccSeed("Opening Balance Equity", false, "Opening Balance Equity")
  ]

  /** The account an entry stands for, its type name resolved by the lookup. */
  function Seeded(seed: AccSeed): (a: Acc)
    ensures a.name == seed.name && a.debitInc == seed.debitInc
    ensures a.accountTypeId == TypeIdOf(seed.typeName)
  {
    Acc(seed.name, seed.debitInc, TypeIdOf(seed.typeName))
  }

  /** DEFAULT_ACCOUNTS: the entries in list order, each with its type's id. */
  function DefaultAccounts(): (accounts: seq<Acc>)
    ensures |accounts| == |DefaultAccountSeeds|
    ensures forall i :: 0 <= i < |accounts| ==> accounts[i] == Seeded(DefaultAccountSeeds[i])
  {
    seq(|DefaultAccountSeeds|, i requires 0 <= i < |DefaultAccountSeeds| => Seeded(DefaultAccountSeeds[i]))
  }

  /** The position in the default types of the type each default account names. */
  const SeedTypeIndex: seq<int> := [0, 1, 3, 6, 6, 5, 8, 9]

  lemma SeedTypesExist(i: int)
    requires 0 <= i < |DefaultAccountSeeds|
    ensures 0 <= SeedTypeIndex[i] < |DefaultAccountTypes|
    ensures DefaultAccountTypes[SeedTypeIndex[i]].name == DefaultAccountSeeds[i].typeName
  {
  }

  /** Two names with the same id are the same name: the lookup is injective where it finds something. */
  lemma LookupIsInjective(name1: string, name2: string)
    requires TypeIdOf(name1) != NotFound
    requires TypeIdOf(name1) == TypeIdOf(name2)
    ensures name1 == name2
  {
  }

  /** No two default account types share a name. */
  lemma DefaultTypeNamesDistinct()
    ensures forall i, j :: 0 <= i < j < |DefaultAccountTypes| ==>
              DefaultAccountTypes[i].name != DefaultAccountTypes[j].name
  {
  }

  /** Because the names are distinct, each default type's name leads back to its own id. */
  lemma LookupFindsEveryDefaultType(j: int)
    requires 0 <= j < |DefaultAccountTypes|
    ensures TypeIdOf(DefaultAccountTypes[j].name) == j + 1
  {
    DefaultTypeNamesDistinct();
  }

  /** Each default account gets the id of the type its entry names: one more than that type's position. */
  lemma DefaultAccountResolves(i: int)
    requires 0 <= i < |DefaultAccountSeeds|
    ensures DefaultAccounts()[i].accountTypeId == SeedTypeIndex[i] + 1
  {
    SeedTypesExist(i);
    LookupFindsEveryDefaultType(SeedTypeIndex[i]);
  }

  /** No default account is left with the "not found" id: each refers to a seeded type. */
  lemma DefaultAccountsHaveTypes()
    ensures forall i :: 0 <= i < |DefaultAccounts()| ==>
              DefaultAccounts()[i].accountTypeId != NotFound
              && 1 <= DefaultAccounts()[i].accountTypeId <= |DefaultAccountTypes|
  {
    forall i | 0 <= i < |DefaultAccounts()|
      ensures DefaultAccounts()[i].accountTypeId != NotFound
              && 1 <= DefaultAccounts()[i].accountTypeId <= |DefaultAccountTypes|
    {
      DefaultAccountResolves(i);
    }
  }
}
