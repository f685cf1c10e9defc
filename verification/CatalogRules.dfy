/** The starter catalog and how a user's category finds its place in it. */
module CatalogRules {
  datatype Kind = Income | Expense

  datatype CatalogEntry = CatalogEntry(kind: Kind, name: string, icon: string, color: string)

  const CATALOG: seq<CatalogEntry> := [
    CatalogEntry(Income, "Salary", "Salary", "evergreen"),
    CatalogEntry(Income, "Freelance", "Freelance", "indigo"),
    CatalogEntry(Income, "Gifts", "Gifts", "clay"),
    CatalogEntry(Income, "Other income", "Other", "slate"),
    CatalogEntry(Expense, "Groceries", "Grocery", "evergreen"),
    CatalogEntry(Expense, "Eating out", "Restaurant", "clay"),
    CatalogEntry(Expense, "Housing", "Housing", "slate"),
    CatalogEntry(Expense, "Utilities", "Utilities", "amber"),
    CatalogEntry(Expense, "Transport", "Transport", "indigo"),
    CatalogEntry(Expense, "Car", "Car", "slate"),
    CatalogEntry(Expense, "Health", "Health", "clay"),
    CatalogEntry(Expense, "Personal care", "Beauty", "amber"),
    CatalogEntry(Expense, "Clothes", "Clothes", "plum"),
    CatalogEntry(Expense, "Home goods", "Home goods", "evergreen"),
    CatalogEntry(Expense, "Entertainment", "Entertainment", "amber"),
    CatalogEntry(Expense, "Subscriptions", "Subscriptions", "indigo"),
    CatalogEntry(Expense, "Education", "Education", "slate"),
    CatalogEntry(Expense, "Travel", "Travel", "indigo"),
    CatalogEntry(Expense, "Gifts", "Gifts", "clay"),
    CatalogEntry(Expense, "Other expenses", "Other", "slate")
  ]

  function Fallback(kind: Kind): string {
    if kind == Income then "Other income" else "Other expenses"
  }

  function SortPrefix(kind: Kind): nat {
    if kind == Income then 100 else 200
  }

  /** Keys are normalized names. */
  const INCOME_ALIASES: map<string, string> := map[
    "bonus" := "Salary", "wage" := "Salary", "wages" := "Salary", "paycheck" := "Salary", "gift" := "Gifts",
    "other" := "Other income", "others" := "Other income", "misc" := "Other income"
  ]

  const EXPENSE_ALIASES: map<string, string> := map[
    "grocery" := "Groceries", "supermarket" := "Groceries", "restaurant" := "Eating out",
    "restaurants" := "Eating out", "cafe" := "Eating out", "cafes" := "Eating out", "coffee" := "Eating out",
    "dining" := "Eating out", "dining out" := "Eating out", "rent" := "Housing", "mortgage" := "Housing",
    "utility" := "Utilities", "internet" := "Utilities", "taxi" := "Transport", "transportation" := "Transport",
    "public transport" := "Transport", "fuel" := "Car", "petrol" := "Car", "parking" := "Car",
    "pharmacy" := "Health", "medicine" := "Health", "fitness" := "Health", "gym" := "Health",
    "beauty" := "Personal care", "clothing" := "Clothes", "electronics" := "Home goods",
    "household" := "Home goods", "subscription" := "Subscriptions", "vacation" := "Travel", "gift" := "Gifts",
    "other" := "Other expenses", "others" := "Other expenses", "misc" := "Other expenses"
  ]

  const INCOME_ICONS: map<string, string> := map[
    "Salary" := "Salary", "Bonus" := "Salary", "Freelance" := "Freelance", "Gifts" := "Gifts"
  ]

  const EXPENSE_ICONS: map<string, string> := map[
    "Grocery" := "Groceries", "Restaurant" := "Eating out", "Cafe" := "Eating out", "Housing" := "Housing",
    "Utilities" := "Utilities", "Internet" := "Utilities", "Transport" := "Transport", "Taxi" := "Transport",
    "Car" := "Car", "Fuel" := "Car", "Health" := "Health", "Pharmacy" := "Health", "Fitness" := "Health",
    "Beauty" := "Personal care", "Clothes" := "Clothes", "Electronics" := "Home goods",
    "Home goods" := "Home goods", "Entertainment" := "Entertainment", "Subscriptions" := "Subscriptions",
    "Education" := "Education", "Travel" := "Travel", "Gifts" := "Gifts"
  ]

  function NameAliases(kind: Kind): map<string, string> {
    if kind == Income then INCOME_ALIASES else EXPENSE_ALIASES
  }

  function IconAliases(kind: Kind): map<string, string> {
    if kind == Income then INCOME_ICONS else EXPENSE_ICONS
  }

  /** A place in the catalog: names are unique within a kind. */
  datatype Key = Key(kind: Kind, name: string)

  function KeyAt(k: nat): Key
    requires k < |CATALOG|
  {
    Key(CATALOG[k].kind, CATALOG[k].name)
  }

  ghost predicate InCatalog(key: Key) {
    exists k :: 0 <= k < |CATALOG| && KeyAt(k) == key
  }

  /** Rank 0 is the same name, 1 a known rename, 2 by icon or fallback; only 0 and 1 keep their id. */
  datatype Mapping = Mapping(target: string, rank: nat)

  predicate IsCalled(norm: string -> string, kind: Kind, name: string, k: nat)
    requires k < |CATALOG|
  {
    CATALOG[k].kind == kind && norm(CATALOG[k].name) == norm(name)
  }

  /** The first entry of the kind with this normalized name, or |CATALOG|. */
  function FindSame(norm: string -> string, kind: Kind, name: string, from: nat): (k: nat)
    requires from <= |CATALOG|
    ensures from <= k <= |CATALOG| && (k < |CATALOG| ==> IsCalled(norm, kind, name, k))
    ensures forall j :: from <= j < k ==> !IsCalled(norm, kind, name, j)
    decreases |CATALOG| - from
  {
    if from == |CATALOG| || IsCalled(norm, kind, name, from) then from else FindSame(norm, kind, name, from + 1)
  }

  /** Text normalization is a parameter: folding, case and spacing are not modelled. */
  function MapCategory(norm: string -> string, kind: Kind, name: string, icon: string): Mapping {
    var same := FindSame(norm, kind, name, 0);
    if same < |CATALOG| then Mapping(CATALOG[same].name, 0)
    else if norm(name) in NameAliases(kind) then Mapping(NameAliases(kind)[norm(name)], 1)
    else if icon in IconAliases(kind) then Mapping(IconAliases(kind)[icon], 2)
    else Mapping(Fallback(kind), 2)
  }

  /** What the real normalization does to the catalog's own names: it keeps them apart. */
  ghost predicate KeepsCatalogApart(norm: string -> string) {
    forall j, k :: 0 <= j < k < |CATALOG| && CATALOG[j].kind == CATALOG[k].kind ==>
                     norm(CATALOG[j].name) != norm(CATALOG[k].name)
  }

  function Position(k: nat): nat
    requires k < |CATALOG|
  {
    1 + if k == 0 then 0 else PositionBefore(CATALOG[k].kind, k)
  }

  /** How many entries of the kind precede the k-th. */
  function PositionBefore(kind: Kind, k: nat): nat
    requires k <= |CATALOG|
  {
    if k == 0 then 0 else PositionBefore(kind, k - 1) + if CATALOG[k - 1].kind == kind then 1 else 0
  }

  function SortOf(k: nat): nat
    requires k < |CATALOG|
  {
    SortPrefix(CATALOG[k].kind) + Position(k)
  }

  // ------------------------------------------------------------------ facts about the tables

  lemma {:induction false} KeysAreDistinct(j: nat, k: nat)
    requires j < k < |CATALOG|
    ensures KeyAt(j) != KeyAt(k)
  {
  }

  lemma CatalogHas(k: nat, kind: Kind, name: string)
    requires k < |CATALOG| && CATALOG[k].kind == kind && CATALOG[k].name == name
    ensures InCatalog(Key(kind, name))
  {
    assert KeyAt(k) == Key(kind, name);
  }

  const INCOME_TARGETS: set<string> :=
    {"Salary", "Gifts", "Other income", "Freelance"}

  const EXPENSE_TARGETS: set<string> :=
    {"Groceries", "Eating out", "Housing", "Utilities", "Transport", "Car", "Health", "Personal care",
     "Clothes", "Home goods", "Subscriptions", "Travel", "Gifts", "Other expenses", "Entertainment",
     "Education"}

  lemma TablesLeadToTargets(key: string)
    ensures key in INCOME_ALIASES ==> INCOME_ALIASES[key] in INCOME_TARGETS
    ensures key in INCOME_ICONS ==> INCOME_ICONS[key] in INCOME_TARGETS
    ensures key in EXPENSE_ICONS ==> EXPENSE_ICONS[key] in EXPENSE_TARGETS
  {
  }

  lemma ExpenseAliasesLeadToTargets(key: string)
    ensures key in EXPENSE_ALIASES ==> EXPENSE_ALIASES[key] in EXPENSE_TARGETS
  {
  }

  lemma IncomeTargetsAreInTheCatalog(name: string)
    requires name in INCOME_TARGETS
    ensures InCatalog(Key(Income, name))
  {
    if name == "Salary" {
      CatalogHas(0, Income, name);
    } else if name == "Freelance" {
      CatalogHas(1, Income, name);
    } else if name == "Gifts" {
      CatalogHas(2, Income, name);
    } else if name == "Other income" {
      CatalogHas(3, Income, name);
    }
  }

  lemma ExpenseTargetsAreInTheCatalog(name: string)
    requires name in EXPENSE_TARGETS
    ensures InCatalog(Key(Expense, name))
  {
    if name == "Groceries" {
      CatalogHas(4, Expense, name);
    } else if name == "Eating out" {
      CatalogHas(5, Expense, name);
    } else if name == "Housing" {
      CatalogHas(6, Expense, name);
    } else if name == "Utilities" {
      CatalogHas(7, Expense, name);
    } else {
      LaterExpenseTargetsAreInTheCatalog(name);
    }
  }

  lemma LaterExpenseTargetsAreInTheCatalog(name: string)
    requires name in EXPENSE_TARGETS - {"Groceries", "Eating out", "Housing", "Utilities"}
    ensures InCatalog(Key(Expense, name))
  {
    if name == "Transport" {
      CatalogHas(8, Expense, name);
    } else if name == "Car" {
      CatalogHas(9, Expense, name);
    } else if name == "Health" {
      CatalogHas(10, Expense, name);
    } else if name == "Personal care" {
      CatalogHas(11, Expense, name);
    } else if name == "Clothes" {
      CatalogHas(12, Expense, name);
    } else if name == "Home goods" {
      CatalogHas(13, Expense, name);
    } else if name == "Entertainment" {
      CatalogHas(14, Expense, name);
    } else if name == "Subscriptions" {
      CatalogHas(15, Expense, name);
    } else if name == "Education" {
      CatalogHas(16, Expense, name);
    } else if name == "Travel" {
      CatalogHas(17, Expense, name);
    } else if name == "Gifts" {
      CatalogHas(18, Expense, name);
    } else if name == "Other expenses" {
      CatalogHas(19, Expense, name);
    }
  }

  lemma LookupsStayInTheCatalog(kind: Kind, key: string)
    ensures key in NameAliases(kind) ==> InCatalog(Key(kind, NameAliases(kind)[key]))
    ensures key in IconAliases(kind) ==> InCatalog(Key(kind, IconAliases(kind)[key]))
    ensures InCatalog(Key(kind, Fallback(kind)))
  {
    TablesLeadToTargets(key);
    ExpenseAliasesLeadToTargets(key);
    if kind == Income {
      IncomeTargetsAreInTheCatalog(Fallback(Income));
      if key in INCOME_ALIASES { IncomeTargetsAreInTheCatalog(INCOME_ALIASES[key]); }
      if key in INCOME_ICONS { IncomeTargetsAreInTheCatalog(INCOME_ICONS[key]); }
    } else {
      ExpenseTargetsAreInTheCatalog(Fallback(Expense));
      if key in EXPENSE_ALIASES { ExpenseTargetsAreInTheCatalog(EXPENSE_ALIASES[key]); }
      if key in EXPENSE_ICONS { ExpenseTargetsAreInTheCatalog(EXPENSE_ICONS[key]); }
    }
  }

  /** Whatever a category is called, it has a place in the catalog, of its own kind. */
  lemma EveryCategoryHasAPlace(norm: string -> string, kind: Kind, name: string, icon: string)
    ensures InCatalog(Key(kind, MapCategory(norm, kind, name, icon).target))
  {
    var same := FindSame(norm, kind, name, 0);
    if same < |CATALOG| {
      CatalogHas(same, kind, CATALOG[same].name);
    } else {
      LookupsStayInTheCatalog(kind, norm(name));
      LookupsStayInTheCatalog(kind, icon);
    }
  }

  /** The name is, normalized, that of an entry of the kind. */
  ghost predicate IsEntryName(norm: string -> string, kind: Kind, name: string) {
    exists k :: 0 <= k < |CATALOG| && IsCalled(norm, kind, name, k)
  }

  /** A known rename: no entry's own name, but one of the kind's former or usual ones. */
  ghost predicate IsRename(norm: string -> string, kind: Kind, name: string) {
    !IsEntryName(norm, kind, name) && norm(name) in NameAliases(kind)
  }

  /** The name decides before the icon: an entry's own name, then a rename, then the icon, then "other". */
  lemma NamesDecideBeforeIcons(norm: string -> string, kind: Kind, name: string, icon: string)
    ensures var m := MapCategory(norm, kind, name, icon);
            && (IsEntryName(norm, kind, name) <==> m.rank == 0)
            && (m.rank == 0 ==> exists k :: 0 <= k < |CATALOG| && IsCalled(norm, kind, name, k)
                                            && m.target == CATALOG[k].name)
            && (IsRename(norm, kind, name) ==> m == Mapping(NameAliases(kind)[norm(name)], 1))
            && (!IsEntryName(norm, kind, name) && !IsRename(norm, kind, name) ==>
                  m.rank == 2
                  && if icon in IconAliases(kind) then m.target == IconAliases(kind)[icon]
                     else m.target == if kind == Income then "Other income" else "Other expenses")
  {
    var same := FindSame(norm, kind, name, 0);
    if same < |CATALOG| {
      assert IsCalled(norm, kind, name, same);
    }
  }

  predicate HasItsIcon(kind: Kind, name: string, icon: string) {
    if name == Fallback(kind)
    then icon == "Other" && icon !in IconAliases(kind)
    else icon in IconAliases(kind) && IconAliases(kind)[icon] == name
  }

  lemma IncomeHasItsIcons(k: nat)
    requires k < 4
    ensures HasItsIcon(CATALOG[k].kind, CATALOG[k].name, CATALOG[k].icon)
  {
  }

  lemma ExpenseHasItsIcons(k: nat)
    requires 4 <= k < 6
    ensures HasItsIcon(CATALOG[k].kind, CATALOG[k].name, CATALOG[k].icon)
  {
    if k == 4 {
      assert EXPENSE_ICONS["Grocery"] == "Groceries";
    }
  }

  lemma HouseHasItsIcons(k: nat)
    requires 6 <= k < 8
    ensures HasItsIcon(CATALOG[k].kind, CATALOG[k].name, CATALOG[k].icon)
  {
  }

  lemma MiddleExpenseHasItsIcons(k: nat)
    requires 8 <= k < 12
    ensures HasItsIcon(CATALOG[k].kind, CATALOG[k].name, CATALOG[k].icon)
  {
  }

  lemma LaterExpenseHasItsIcons(k: nat)
    requires 12 <= k < 20
    ensures HasItsIcon(CATALOG[k].kind, CATALOG[k].name, CATALOG[k].icon)
  {
  }

  /** An entry's own icon leads back to it, but for the two entries for anything else. */
  lemma IconsLeadToTheirEntries(k: nat)
    requires k < |CATALOG|
    ensures HasItsIcon(CATALOG[k].kind, CATALOG[k].name, CATALOG[k].icon)
  {
    if k < 4 {
      IncomeHasItsIcons(k);
    } else if k < 6 {
      ExpenseHasItsIcons(k);
    } else if k < 8 {
      HouseHasItsIcons(k);
    } else if k < 12 {
      MiddleExpenseHasItsIcons(k);
    } else {
      LaterExpenseHasItsIcons(k);
    }
  }

  lemma {:induction false} FindSameFinds(norm: string -> string, k: nat, from: nat)
    requires from <= k < |CATALOG| && KeepsCatalogApart(norm)
    ensures FindSame(norm, CATALOG[k].kind, CATALOG[k].name, from) == k
    decreases k - from
  {
    if from < k {
      FindSameFinds(norm, k, from + 1);
    }
  }

  /** A category already named as the catalog names it stays where it is. */
  lemma CatalogNamesMapToThemselves(norm: string -> string, k: nat, icon: string)
    requires k < |CATALOG| && KeepsCatalogApart(norm)
    ensures MapCategory(norm, CATALOG[k].kind, CATALOG[k].name, icon) == Mapping(CATALOG[k].name, 0)
  {
    FindSameFinds(norm, k, 0);
  }

  /** The catalog's sort values rise along the catalog, which is the order it is shown in. */
  lemma {:induction false} SortFollowsTheCatalog(j: nat, k: nat)
    requires j < k < |CATALOG|
    ensures SortOf(j) < SortOf(k)
  {
    if k == j + 1 {
      SortRisesByStep(j);
    } else {
      SortFollowsTheCatalog(j, k - 1);
      SortRisesByStep(k - 1);
    }
  }

  /** The four income entries are sorted from 101 and the sixteen expense entries from 201, without gaps. */
  lemma {:induction false} SortHasNoGaps(k: nat)
    requires k < |CATALOG|
    ensures SortOf(k) == if k < 4 then 101 + k else 201 + (k - 4)
    ensures CATALOG[k].kind == if k < 4 then Income else Expense
  {
    IncomeComesFirst(k);
    EntriesBefore(k);
  }

  lemma IncomeComesFirst(k: nat)
    requires k < |CATALOG|
    ensures CATALOG[k].kind == if k < 4 then Income else Expense
  {
  }

  lemma {:induction false} EntriesBefore(k: nat)
    requires k <= |CATALOG|
    ensures PositionBefore(Income, k) == if k < 4 then k else 4
    ensures PositionBefore(Expense, k) == if k < 4 then 0 else k - 4
  {
    if k > 0 {
      EntriesBefore(k - 1);
      IncomeComesFirst(k - 1);
      assert PositionBefore(Income, k) == PositionBefore(Income, k - 1) + if k <= 4 then 1 else 0;
      assert PositionBefore(Expense, k) == PositionBefore(Expense, k - 1) + if k <= 4 then 0 else 1;
    }
  }

  lemma SortRisesByStep(k: nat)
    requires k + 1 < |CATALOG|
    ensures SortOf(k) < SortOf(k + 1)
  {
    PositionIsBounded(k);
  }

  lemma {:induction false} PositionIsBounded(k: nat)
    requires k < |CATALOG|
    ensures 1 <= Position(k) <= k + 1
  {
    FewBefore(CATALOG[k].kind, k);
  }

  lemma FewBefore(kind: Kind, k: nat)
    requires k <= |CATALOG|
    ensures PositionBefore(kind, k) <= k
  {
  }
}
