/** The `Budgets` table and the five service operations as functions of the table.
    Each function is one `transaction { }` of `BudgetService`: it takes the table as it
    was and gives the table afterwards together with what the service returns. */
module BudgetStore {
  import opened Failures
  import opened Amounts
  import opened Ledger
  import opened HistoryColumn

  /** The single user every request runs as. */
  const DefaultUserId: int := 1

  /** The outcome tags the service returns as strings. */
  const Updated: string := "updated"
  const Created: string := "created"
  const NotFound: string := "notFound"
  const SuccessPrefix: string := "success:"

  /** The primary key of the table: (user_id, category). */
  datatype Key = Key(userId: int, category: string)

  /** The non-key columns of one row. */
  datatype BudgetRow = BudgetRow(originalValue: Amount, spentAmountSoFar: Amount, transactionHistory: HistoryText)

  /** The table: a map, so each key has at most one row. */
  type Table = map<Key, BudgetRow>

  datatype AddBudgetCategoryRequest = AddBudgetCategoryRequest(categoryName: string, originalValue: Amount)

  datatype RecordSpendRequest = RecordSpendRequest(categoryName: string, amountSpent: Amount, description: string)

  /** The snapshot of a category the service hands out, history decoded. */
  datatype BudgetCategoryItem =
    BudgetCategoryItem(category: string, originalValue: Amount, spentAmountSoFar: Amount, transactionHistory: History)

  /** The table after an operation and what the operation returned. */
  datatype Step<R> = Step(table: Table, result: R)

  /** A row's running total agrees with its history. */
  ghost predicate RowConsistent(row: BudgetRow) {
    Decode(row.transactionHistory).Returned? &&
    row.spentAmountSoFar == HistoryTotal(Decode(row.transactionHistory).value)
  }

  /** Every row's running total agrees with its history. */
  ghost predicate Consistent(t: Table) {
    forall k :: k in t ==> RowConsistent(t[k])
  }

  /** The row `addOrUpdateCategory` inserts: nothing spent yet, history "{}". */
  function NewRow(originalValue: Amount): (row: BudgetRow)
    ensures RowConsistent(row)
  {
    BudgetRow(originalValue, 0, EmptyObject)
  }

  /** `addOrUpdateCategory`: an existing row gets the new planned value and keeps its
      spend and history ("updated"); a missing one is inserted fresh ("created"). */
  function AddOrUpdateCategory(t: Table, userId: int, request: AddBudgetCategoryRequest): (s: Step<string>)
    ensures var key := Key(userId, request.categoryName);
      && s.table.Keys == t.Keys + {key}
      && s.table[key].originalValue == request.originalValue
      && (forall k :: k in t && k != key ==> s.table[k] == t[k])
      && (key in t ==> s.result == Updated
                       && s.table[key].spentAmountSoFar == t[key].spentAmountSoFar
                       && s.table[key].transactionHistory == t[key].transactionHistory)
      && (key !in t ==> s.result == Created && s.table[key] == NewRow(request.originalValue))
  {
    var key := Key(userId, request.categoryName);
    if key in t then
      Step(t[key := t[key].(originalValue := request.originalValue)], Updated)
    else
      Step(t[key := NewRow(request.originalValue)], Created)
  }

  /** `recordSpend`: a read-modify-write of one row. A missing category gives "notFound"
      and changes nothing; a history that cannot be decoded throws, and the transaction
      leaves the table as it was; otherwise the total grows by the amount, the entry is
      appended to the bucket for `today`, and the new total is returned after "success:". */
  function RecordSpend(t: Table, userId: int, request: RecordSpendRequest, today: Date): (s: Step<Attempt<string>>)
    ensures var key := Key(userId, request.categoryName);
      && (key !in t ==> s == Step(t, Returned(NotFound)))
      && (key in t && Decode(t[key].transactionHistory).Threw? ==>
            s == Step(t, Threw(Decode(t[key].transactionHistory).error)))
      && (key in t && Decode(t[key].transactionHistory).Returned? ==>
            s.table.Keys == t.Keys &&
            var row, row' := t[key], s.table[key];
            && (forall k :: k in t && k != key ==> s.table[k] == t[k])
            && row'.originalValue == row.originalValue
            && row'.spentAmountSoFar == row.spentAmountSoFar + request.amountSpent
            && row'.transactionHistory
               == Encode(AppendEntry(Decode(row.transactionHistory).value, today,
                                     TransactionEntry(request.amountSpent, request.description)))
            && s.result == Returned(SuccessPrefix + FormatAmount(row'.spentAmountSoFar)))
  {
    var key := Key(userId, request.categoryName);
    if key !in t then Step(t, Returned(NotFound))
    else
      var row := t[key];
      match Decode(row.transactionHistory)
      case Threw(e) => Step(t, Threw(e))
      case Returned(history) =>
        var newSpent := row.spentAmountSoFar + request.amountSpent;
        var history' := AppendEntry(history, today, TransactionEntry(request.amountSpent, request.description));
        Step(t[key := row.(spentAmountSoFar := newSpent, transactionHistory := Encode(history'))],
             Returned(SuccessPrefix + FormatAmount(newSpent)))
  }

  /** `deleteCategory`: removes the row for the key, if any, and returns how many rows it removed. */
  function DeleteCategory(t: Table, userId: int, categoryName: string): (s: Step<int>)
    ensures s.table.Keys == t.Keys - {Key(userId, categoryName)}
    ensures forall k :: k in s.table ==> s.table[k] == t[k]
    ensures s.result == |t.Keys| - |s.table.Keys|
    ensures s.result == (if Key(userId, categoryName) in t then 1 else 0)
  {
    var key := Key(userId, categoryName);
    if key in t then Step(t - {key}, 1) else Step(t, 0)
  }

  /** The snapshot of one row: its columns with the history decoded. */
  function CategoryItem(category: string, row: BudgetRow): (r: Attempt<BudgetCategoryItem>)
    ensures r.Threw? <==> row.transactionHistory.Malformed?
    ensures r.Returned? ==>
      && r.value.category == category
      && r.value.originalValue == row.originalValue
      && r.value.spentAmountSoFar == row.spentAmountSoFar
      && Returned(r.value.transactionHistory) == Decode(row.transactionHistory)
  {
    match Decode(row.transactionHistory)
    case Threw(e) => Threw(e)
    case Returned(history) =>
      Returned(BudgetCategoryItem(category, row.originalValue, row.spentAmountSoFar, history))
  }

  /** `getCategoryDetails`: the snapshot of the addressed row, or null when there is none. */
  function CategoryDetails(t: Table, userId: int, categoryName: string): (r: Attempt<Option<BudgetCategoryItem>>)
    ensures var key := Key(userId, categoryName);
      && (r == Returned(None) <==> key !in t)
      && (r.Threw? <==> key in t && t[key].transactionHistory.Malformed?)
      && (r.Returned? && r.value.Some? ==> CategoryItem(categoryName, t[key]) == Returned(r.value.value))
    ensures Consistent(t) ==>
      && r.Returned?
      && (r.value.Some? ==> r.value.value.spentAmountSoFar == HistoryTotal(r.value.value.transactionHistory))
  {
    var key := Key(userId, categoryName);
    if key !in t then Returned(None)
    else
      match CategoryItem(categoryName, t[key])
      case Threw(e) => Threw(e)
      case Returned(item) => Returned(Some(item))
  }

  /** The keys `getAllCategories` selects: every row of the user. */
  function UserKeys(t: Table, userId: int): (keys: set<Key>)
    ensures forall k :: k in keys <==> k in t && k.userId == userId
  {
    set k | k in t && k.userId == userId
  }

  // ---- The consistency invariant is kept by every operation ----

  lemma AddKeepsConsistent(t: Table, userId: int, request: AddBudgetCategoryRequest)
    requires Consistent(t)
    ensures Consistent(AddOrUpdateCategory(t, userId, request).table)
  {
  }

  lemma RecordSpendKeepsConsistent(t: Table, userId: int, request: RecordSpendRequest, today: Date)
    requires Consistent(t)
    ensures Consistent(RecordSpend(t, userId, request, today).table)
    ensures RecordSpend(t, userId, request, today).result.Returned?
  {
    var key := Key(userId, request.categoryName);
    if key in t && Decode(t[key].transactionHistory).Returned? {
      HistoryTotalAppend(Decode(t[key].transactionHistory).value, today,
                         TransactionEntry(request.amountSpent, request.description));
    }
  }

  lemma DeleteKeepsConsistent(t: Table, userId: int, categoryName: string)
    requires Consistent(t)
    ensures Consistent(DeleteCategory(t, userId, categoryName).table)
  {
  }

  // ---- Properties relating several calls ----

  /** Adding a category twice with the same value changes nothing the second time. */
  lemma AddIsIdempotent(t: Table, userId: int, request: AddBudgetCategoryRequest)
    ensures var once := AddOrUpdateCategory(t, userId, request).table;
      AddOrUpdateCategory(once, userId, request) == Step(once, Updated)
  {
    var key := Key(userId, request.categoryName);
    var once := AddOrUpdateCategory(t, userId, request).table;
    assert once[key := once[key].(originalValue := request.originalValue)] == once;
  }

  /** The table after a sequence of `addOrUpdateCategory` calls. */
  function AddAll(t: Table, userId: int, requests: seq<AddBudgetCategoryRequest>): (t': Table)
    decreases |requests|
  {
    if requests == [] then t
    else AddAll(AddOrUpdateCategory(t, userId, requests[0]).table, userId, requests[1..])
  }

  /** Whether some request in the sequence names the category. */
  predicate Names(requests: seq<AddBudgetCategoryRequest>, categoryName: string) {
    exists i :: 0 <= i < |requests| && requests[i].categoryName == categoryName
  }

  /** After any sequence of `addOrUpdateCategory` calls the key has a row exactly when it
      had one or some call named it; a row that existed keeps its spend and history, and
      the planned value is the one the last such call gave. */
  lemma {:induction false} AddAllRows(t: Table, userId: int, requests: seq<AddBudgetCategoryRequest>, categoryName: string)
    ensures var key, t' := Key(userId, categoryName), AddAll(t, userId, requests);
      && (key in t' <==> key in t || Names(requests, categoryName))
      && (key in t ==> t'[key].spentAmountSoFar == t[key].spentAmountSoFar
                       && t'[key].transactionHistory == t[key].transactionHistory)
      && (key !in t && Names(requests, categoryName) ==>
            t'[key].spentAmountSoFar == 0 && t'[key].transactionHistory == EmptyObject)
      && (key in t' && !Names(requests, categoryName) ==> t'[key] == t[key])
      && (forall i :: (0 <= i < |requests| && requests[i].categoryName == categoryName &&
                       (forall j :: i < j < |requests| ==> requests[j].categoryName != categoryName)) ==>
            t'[key].originalValue == requests[i].originalValue)
    decreases |requests|
  {
    if requests != [] {
      var key := Key(userId, categoryName);
      var t1 := AddOrUpdateCategory(t, userId, requests[0]).table;
      var rest := requests[1..];
      AddAllRows(t1, userId, rest, categoryName);
      assert Names(requests, categoryName) <==> requests[0].categoryName == categoryName || Names(rest, categoryName) by {
        if Names(rest, categoryName) {
          var i :| 0 <= i < |rest| && rest[i].categoryName == categoryName;
          assert requests[i + 1] == rest[i];
        }
        if Names(requests, categoryName) && requests[0].categoryName != categoryName {
          var i :| 0 <= i < |requests| && requests[i].categoryName == categoryName;
          assert rest[i - 1] == requests[i];
        }
      }
      forall i | 0 <= i < |requests| && requests[i].categoryName == categoryName &&
                 (forall j :: i < j < |requests| ==> requests[j].categoryName != categoryName)
        ensures AddAll(t, userId, requests)[key].originalValue == requests[i].originalValue
      {
        if i == 0 {
          assert !Names(rest, categoryName) by {
            forall j | 0 <= j < |rest| ensures rest[j].categoryName != categoryName {
              assert rest[j] == requests[j + 1];
            }
          }
        } else {
          assert rest[i - 1] == requests[i];
          forall j | i - 1 < j < |rest| ensures rest[j].categoryName != categoryName {
            assert rest[j] == requests[j + 1];
          }
        }
      }
    }
  }

  /** Two spends on the same day against the same category land in that day's bucket in call order. */
  lemma TwoSpendsSameDay(t: Table, userId: int, first: RecordSpendRequest, second: RecordSpendRequest, today: Date)
    requires first.categoryName == second.categoryName
    requires Key(userId, first.categoryName) in t
    requires Decode(t[Key(userId, first.categoryName)].transactionHistory).Returned?
    ensures var key := Key(userId, first.categoryName);
      var t2 := RecordSpend(RecordSpend(t, userId, first, today).table, userId, second, today).table;
      && Decode(t2[key].transactionHistory).Returned?
      && Bucket(Decode(t2[key].transactionHistory).value, today)
         == Bucket(Decode(t[key].transactionHistory).value, today)
            + [TransactionEntry(first.amountSpent, first.description),
               TransactionEntry(second.amountSpent, second.description)]
      && t2[key].spentAmountSoFar == t[key].spentAmountSoFar + first.amountSpent + second.amountSpent
  {
  }

  /** After a delete the category is gone from both reads. */
  lemma DeleteThenRead(t: Table, userId: int, categoryName: string)
    ensures var t' := DeleteCategory(t, userId, categoryName).table;
      && CategoryDetails(t', userId, categoryName) == Returned(None)
      && Key(userId, categoryName) !in UserKeys(t', userId)
  {
  }
}
