/** `BudgetService`: the object that owns the `Budgets` table and changes its rows in place.
    Each method is one transaction; its new state is the matching function of `BudgetStore`
    applied to the table as it was. */
module Service {
  import opened Failures
  import opened Amounts
  import opened Ledger
  import opened HistoryColumn
  import opened BudgetStore

  class BudgetService {
    const defaultUserId: int := DefaultUserId
    var budgets: Table

    /** Every row's running total equals the sum over its history. */
    ghost predicate Valid()
      reads this
    {
      Consistent(budgets)
    }

    /** A service over an empty table. */
    constructor ()
      ensures budgets == map[] && Valid()
    {
      budgets := map[];
    }

    method AddOrUpdateCategory(request: AddBudgetCategoryRequest) returns (result: string)
      modifies this
      ensures var s := BudgetStore.AddOrUpdateCategory(old(budgets), defaultUserId, request);
        budgets == s.table && result == s.result
      ensures old(Valid()) ==> Valid()
    {
      var key := Key(defaultUserId, request.categoryName);
      if key in budgets {
        var existing := budgets[key];
        budgets := budgets[key := existing.(originalValue := request.originalValue)];
        result := Updated;
      } else {
        budgets := budgets[key := BudgetRow(request.originalValue, 0, EmptyObject)];
        result := Created;
      }
      if old(Valid()) {
        AddKeepsConsistent(old(budgets), defaultUserId, request);
      }
    }

    /** `today` stands for `LocalDate.now().toString()`. */
    method RecordSpend(request: RecordSpendRequest, today: Date) returns (result: Attempt<string>)
      modifies this
      ensures var s := BudgetStore.RecordSpend(old(budgets), defaultUserId, request, today);
        budgets == s.table && result == s.result
      ensures old(Valid()) ==> Valid() && result.Returned?
    {
      var key := Key(defaultUserId, request.categoryName);
      if key !in budgets {
        return Returned(NotFound);
      }
      var existing := budgets[key];
      var newSpent := existing.spentAmountSoFar + request.amountSpent;
      var decoded := Decode(existing.transactionHistory);
      if decoded.Threw? {
        return Threw(decoded.error);
      }
      var currentHistory := decoded.value;
      var transactionsForDate := if today in currentHistory then currentHistory[today] else [];
      currentHistory := currentHistory[today := transactionsForDate];
      transactionsForDate := transactionsForDate + [TransactionEntry(request.amountSpent, request.description)];
      currentHistory := currentHistory[today := transactionsForDate];
      assert currentHistory == AppendEntry(decoded.value, today, TransactionEntry(request.amountSpent, request.description));
      budgets := budgets[key := existing.(spentAmountSoFar := newSpent, transactionHistory := Encode(currentHistory))];
      result := Returned(SuccessPrefix + FormatAmount(newSpent));
      if old(Valid()) {
        RecordSpendKeepsConsistent(old(budgets), defaultUserId, request, today);
      }
    }

    method DeleteCategory(categoryName: string) returns (deletedRows: int)
      modifies this
      ensures var s := BudgetStore.DeleteCategory(old(budgets), defaultUserId, categoryName);
        budgets == s.table && deletedRows == s.result
      ensures old(Valid()) ==> Valid()
    {
      var key := Key(defaultUserId, categoryName);
      if key in budgets {
        budgets := budgets - {key};
        deletedRows := 1;
      } else {
        deletedRows := 0;
      }
    }

    /** `getAllCategories`: a snapshot of every row of the user, in no particular order
        (the query has no ORDER BY); it throws if some row's history cannot be decoded. */
    method GetAllCategories() returns (r: Attempt<seq<BudgetCategoryItem>>)
      ensures r.Threw? <==>
        exists k :: k in UserKeys(budgets, defaultUserId) && budgets[k].transactionHistory.Malformed?
      ensures r.Threw? ==>
        exists k :: k in UserKeys(budgets, defaultUserId) && CategoryItem(k.category, budgets[k]) == Threw(r.error)
      ensures r.Returned? ==> forall i :: 0 <= i < |r.value| ==>
        var key := Key(defaultUserId, r.value[i].category);
        key in budgets && CategoryItem(key.category, budgets[key]) == Returned(r.value[i])
      ensures r.Returned? ==> forall k :: k in UserKeys(budgets, defaultUserId) ==>
        exists i :: 0 <= i < |r.value| && r.value[i].category == k.category
      ensures r.Returned? ==> forall i, j :: 0 <= i < j < |r.value| ==> r.value[i].category != r.value[j].category
      ensures r.Returned? ==> |r.value| == |UserKeys(budgets, defaultUserId)|
      ensures Valid() ==> r.Returned? && forall i :: 0 <= i < |r.value| ==>
        r.value[i].spentAmountSoFar == HistoryTotal(r.value[i].transactionHistory)
    {
      var selected := UserKeys(budgets, defaultUserId);
      var remaining := selected;
      var items: seq<BudgetCategoryItem> := [];
      while remaining != {}
        invariant remaining <= selected
        invariant |items| + |remaining| == |selected|
        invariant forall k :: k in selected && k !in remaining ==> !budgets[k].transactionHistory.Malformed?
        invariant forall i :: 0 <= i < |items| ==>
          var key := Key(defaultUserId, items[i].category);
          key in selected && key !in remaining && CategoryItem(key.category, budgets[key]) == Returned(items[i])
        invariant forall k :: k in selected && k !in remaining ==>
          exists i :: 0 <= i < |items| && items[i].category == k.category
        invariant forall i, j :: 0 <= i < j < |items| ==> items[i].category != items[j].category
        decreases remaining
      {
        var key :| key in remaining;
        var item := CategoryItem(key.category, budgets[key]);
        if item.Threw? {
          return Threw(item.error);
        }
        ghost var before := items;
        items := items + [item.value];
        assert forall i :: 0 <= i < |before| ==> items[i] == before[i];
        assert items[|before|].category == key.category;
        remaining := remaining - {key};
      }
      r := Returned(items);
    }

    /** `getCategoryDetails`: the snapshot of the addressed row of the user, if there is one. */
    function GetCategoryDetails(categoryName: string): (r: Attempt<Option<BudgetCategoryItem>>)
      reads this
      ensures Valid() ==>
        && r.Returned?
        && (r.value.Some? ==> r.value.value.spentAmountSoFar == HistoryTotal(r.value.value.transactionHistory))
    {
      CategoryDetails(budgets, defaultUserId, categoryName)
    }
  }

  /** After a delete, the category is in no list `getAllCategories` returns. */
  method DeleteThenReadAll(service: BudgetService, categoryName: string) returns (r: Attempt<seq<BudgetCategoryItem>>)
    modifies service
    ensures r.Returned? ==> forall i :: 0 <= i < |r.value| ==> r.value[i].category != categoryName
  {
    var _ := service.DeleteCategory(categoryName);
    r := service.GetAllCategories();
  }

  /** The values the walk-through computes along the way. */
  lemma GroceriesArithmetic(today: Date, weekly: TransactionEntry, snacks: TransactionEntry)
    ensures AppendEntry(map[], today, weekly) == map[today := [weekly]]
    ensures AppendEntry(map[today := [weekly]], today, snacks) == map[today := [weekly, snacks]]
    ensures SuccessPrefix + FormatAmount(4550) == "success:45.5"
    ensures SuccessPrefix + FormatAmount(5775) == "success:57.75"
  {
    assert [] + [weekly] == [weekly];
    assert [weekly] + [snacks] == [weekly, snacks];
    assert NatToDecimal(45) == "45" && FractionDigits(50) == "5";
    assert NatToDecimal(57) == "57" && FractionDigits(75) == "75";
  }

  /** The walk-through of a fresh table: create "Groceries" at 300.00, spend 45.50 and
      12.25 on one day, read it back, record against an unknown category, delete. */
  method GroceriesWalkthrough(today: Date) {
    var key := Key(DefaultUserId, "Groceries");
    var weekly, snacks := TransactionEntry(4550, "Weekly shop"), TransactionEntry(1225, "Snacks");
    GroceriesArithmetic(today, weekly, snacks);
    var service := new BudgetService();
    var created := service.AddOrUpdateCategory(AddBudgetCategoryRequest("Groceries", 30000));
    assert created == Created;
    assert service.budgets == map[key := BudgetRow(30000, 0, EmptyObject)];

    var first := service.RecordSpend(RecordSpendRequest("Groceries", 4550, "Weekly shop"), today);
    assert first == Returned("success:45.5");
    assert service.budgets == map[key := BudgetRow(30000, 4550, Json(map[today := [weekly]]))];

    var second := service.RecordSpend(RecordSpendRequest("Groceries", 1225, "Snacks"), today);
    assert second == Returned("success:57.75");
    assert service.budgets == map[key := BudgetRow(30000, 5775, Json(map[today := [weekly, snacks]]))];

    var details := service.GetCategoryDetails("Groceries");
    assert details == Returned(Some(BudgetCategoryItem("Groceries", 30000, 5775, map[today := [weekly, snacks]])));

    var unknown := service.RecordSpend(RecordSpendRequest("Unknown", 1000, "x"), today);
    assert unknown == Returned(NotFound);

    var deleted := service.DeleteCategory("Groceries");
    assert deleted == 1;
    assert service.budgets == map[];
    var all := service.GetAllCategories();
    assert all == Returned([]) by {
      assert UserKeys(service.budgets, service.defaultUserId) == {};
    }
  }
}
