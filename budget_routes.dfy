/** The HTTP routes of `/budget`: how each route turns what the service returned, or the
    exception thrown while serving, into a status code and a body. Ktor's `call.receive`
    and `call.respond` are not modelled; a route is a function of the outcome of its
    `try` block. */
module Routes {
  import opened Failures
  import opened Amounts
  import opened Ledger
  import opened HistoryColumn
  import BudgetStore

  type Table = BudgetStore.Table
  type BudgetCategoryItem = BudgetStore.BudgetCategoryItem

  /** The Ktor status codes the routes answer with. */
  datatype HttpStatusCode = OK | Created | BadRequest | NotFound | InternalServerError {
    function Value(): int {
      match this
      case OK => 200
      case Created => 201
      case BadRequest => 400
      case NotFound => 404
      case InternalServerError => 500
    }
  }

  /** What `call.respond` sends: a text message, the category list, or one category. */
  datatype Body = Message(text: string) | Categories(items: seq<BudgetCategoryItem>) | Category(item: BudgetCategoryItem)

  datatype Response = Response(status: HttpStatusCode, body: Body)

  // ---- Kotlin string helpers ----

  predicate StartsWith(s: string, prefix: string) {
    |prefix| <= |s| && s[..|prefix|] == prefix
  }

  /** Kotlin's `s.split(sep)`: the pieces between separators, empty ones included. */
  function Split(s: string, sep: char): (pieces: seq<string>)
    ensures 1 <= |pieces|
    ensures forall i :: 0 <= i < |pieces| ==> sep !in pieces[i]
    decreases |s|
  {
    if s == [] then [""]
    else
      var rest := Split(s[1..], sep);
      if s[0] == sep then [""] + rest else [[s[0]] + rest[0]] + rest[1..]
  }

  /** Kotlin's `pieces.joinToString(sep)`. */
  function Join(pieces: seq<string>, sep: char): (s: string)
    requires 1 <= |pieces|
    decreases |pieces|
  {
    if |pieces| == 1 then pieces[0] else pieces[0] + [sep] + Join(pieces[1..], sep)
  }

  /** Splitting loses nothing: joining the pieces back gives the text. */
  lemma {:induction false} JoinSplit(s: string, sep: char)
    ensures Join(Split(s, sep), sep) == s
    decreases |s|
  {
    if s != [] {
      var rest := Split(s[1..], sep);
      JoinSplit(s[1..], sep);
      if s[0] == sep {
        assert Split(s, sep)[1..] == rest;
      } else {
        var pieces := Split(s, sep);
        if |rest| == 1 {
          assert pieces == [[s[0]] + rest[0]];
        } else {
          assert pieces[1..] == rest[1..];
          assert Join(rest, sep) == rest[0] + [sep] + Join(rest[1..], sep);
        }
      }
    }
  }

  /** A text without the separator is a single piece. */
  lemma {:induction false} SplitWithoutSeparator(t: string, sep: char)
    requires sep !in t
    ensures Split(t, sep) == [t]
    decreases |t|
  {
    if t != [] {
      SplitWithoutSeparator(t[1..], sep);
      assert [t[0]] + t[1..] == t;
    }
  }

  /** A separator-free head becomes the first piece and the split goes on after the separator. */
  lemma {:induction false} SplitAfterHead(head: string, sep: char, tail: string)
    requires sep !in head
    ensures Split(head + [sep] + tail, sep) == [head] + Split(tail, sep)
    decreases |head|
  {
    if head == [] {
      assert head + [sep] + tail == [sep] + tail;
      assert ([sep] + tail)[1..] == tail;
    } else {
      var s := head + [sep] + tail;
      assert s[1..] == head[1..] + [sep] + tail;
      SplitAfterHead(head[1..], sep, tail);
      assert [head[0]] + head[1..] == head;
    }
  }

  /** `"success:$newSpent".split(":")[1]` is the printed total exactly when that text has no colon. */
  lemma SuccessSplit(total: string)
    requires ':' !in total
    ensures Split(BudgetStore.SuccessPrefix + total, ':') == ["success", total]
  {
    assert BudgetStore.SuccessPrefix + total == "success" + [':'] + total;
    SplitAfterHead("success", ':', total);
    SplitWithoutSeparator(total, ':');
  }

  /** A tag starting with "success:" always has a second piece, so `split(":")[1]` cannot
      fail; it is the text after the prefix when that text has no colon. */
  lemma SuccessTagPieces(result: string)
    requires StartsWith(result, BudgetStore.SuccessPrefix)
    ensures 2 <= |Split(result, ':')|
    ensures ':' !in result[|BudgetStore.SuccessPrefix|..] ==>
      Split(result, ':')[1] == result[|BudgetStore.SuccessPrefix|..]
  {
    var total := result[|BudgetStore.SuccessPrefix|..];
    assert result == BudgetStore.SuccessPrefix + total;
    assert result == "success" + [':'] + total;
    SplitAfterHead("success", ':', total);
    if ':' !in total {
      SuccessSplit(total);
    }
  }

  /** `categoryName` of the path, or the exception the route throws when it is missing. */
  function RequireParameter(parameter: Option<string>): (r: Attempt<string>)
    ensures parameter.Some? ==> r == Returned(parameter.value)
    ensures parameter.None? ==> r.Threw? && r.error.kind == IllegalArgument
  {
    match parameter
    case Some(name) => Returned(name)
    case None => Threw(Exception(IllegalArgument, "Category name missing"))
  }

  // ---- The five routes ----

  /** POST /budget/addCategory: "updated" is 200, "created" is 201, any other tag 500;
      an exception while receiving or serving is 400. */
  function AddCategoryRoute(outcome: Attempt<(BudgetStore.AddBudgetCategoryRequest, string)>): (resp: Response)
    ensures outcome.Threw? <==> resp.status == BadRequest
    ensures outcome.Returned? ==>
      && (resp.status == OK <==> outcome.value.1 == BudgetStore.Updated)
      && (resp.status == Created <==> outcome.value.1 == BudgetStore.Created)
      && (resp.status == InternalServerError <==>
            outcome.value.1 != BudgetStore.Updated && outcome.value.1 != BudgetStore.Created)
  {
    match outcome
    case Threw(e) => Response(BadRequest, Message("Failed to add/update budget category: " + e.message))
    case Returned((request, result)) =>
      if result == BudgetStore.Updated then
        Response(OK, Message("Budget category '" + request.categoryName + "' updated successfully."))
      else if result == BudgetStore.Created then
        Response(Created, Message("Budget category '" + request.categoryName + "' added successfully."))
      else
        Response(InternalServerError, Message("Unexpected error during category operation."))
  }

  function SpendRecordedMessage(categoryName: string, newSpent: string): (message: string) {
    "Spend recorded for '" + categoryName + "'. New spent total: " + newSpent
  }

  /** The 200 message of recordSpend names the new total unambiguously. */
  lemma SpendMessageIdentifiesTotal(categoryName: string, a: Amount, b: Amount)
    requires SpendRecordedMessage(categoryName, FormatAmount(a)) == SpendRecordedMessage(categoryName, FormatAmount(b))
    ensures a == b
  {
    var head := "Spend recorded for '" + categoryName + "'. New spent total: ";
    assert SpendRecordedMessage(categoryName, FormatAmount(a)) == head + FormatAmount(a);
    assert SpendRecordedMessage(categoryName, FormatAmount(b)) == head + FormatAmount(b);
    assert FormatAmount(a) == (head + FormatAmount(a))[|head|..];
    assert FormatAmount(b) == (head + FormatAmount(b))[|head|..];
    FormatAmountInjective(a, b);
  }

  /** POST /budget/recordSpend: "notFound" is 404; a tag starting with "success:" is 200 with
      the second piece of its split on ':'; any other tag 500; an exception is 400. */
  function RecordSpendRoute(outcome: Attempt<(BudgetStore.RecordSpendRequest, string)>): (resp: Response)
    ensures outcome.Threw? <==> resp.status == BadRequest
    ensures outcome.Returned? ==>
      var (request, result) := outcome.value;
      && (resp.status == NotFound <==> result == BudgetStore.NotFound)
      && (resp.status == OK <==> StartsWith(result, BudgetStore.SuccessPrefix))
      && (resp.status == InternalServerError <==>
            result != BudgetStore.NotFound && !StartsWith(result, BudgetStore.SuccessPrefix))
      && (StartsWith(result, BudgetStore.SuccessPrefix) && ':' !in result[|BudgetStore.SuccessPrefix|..] ==>
            resp.body == Message(SpendRecordedMessage(request.categoryName, result[|BudgetStore.SuccessPrefix|..])))
  {
    match outcome
    case Threw(e) => Response(BadRequest, Message("Failed to record spending: " + e.message))
    case Returned((request, result)) =>
      if result == BudgetStore.NotFound then
        assert result[0] != BudgetStore.SuccessPrefix[0];
        Response(NotFound, Message("Budget category '" + request.categoryName + "' not found for user."))
      else if StartsWith(result, BudgetStore.SuccessPrefix) then
        SuccessTagPieces(result);
        Response(OK, Message(SpendRecordedMessage(request.categoryName, Split(result, ':')[1])))
      else
        Response(InternalServerError, Message("An unexpected error occurred."))
  }

  /** DELETE /budget/deleteCategory/{categoryName}: a positive row count is 200, otherwise 404;
      an IllegalArgumentException (the missing parameter) is 400 with its message, any other
      exception 500. */
  function DeleteCategoryRoute(outcome: Attempt<(string, int)>): (resp: Response)
    ensures outcome.Returned? ==>
      && (resp.status == OK <==> outcome.value.1 > 0)
      && (resp.status == NotFound <==> outcome.value.1 <= 0)
    ensures outcome.Threw? && outcome.error.IsIllegalArgument() ==>
      resp == Response(BadRequest, Message(outcome.error.message))
    ensures outcome.Threw? && !outcome.error.IsIllegalArgument() ==> resp.status == InternalServerError
  {
    match outcome
    case Returned((categoryName, deletedRows)) =>
      if deletedRows > 0 then
        Response(OK, Message("Budget category '" + categoryName + "' deleted successfully."))
      else
        Response(NotFound, Message("Budget category '" + categoryName + "' not found for user."))
    case Threw(e) =>
      if e.IsIllegalArgument() then Response(BadRequest, Message(e.message))
      else Response(InternalServerError, Message("Failed to delete budget category: " + e.message))
  }

  /** GET /budget/getAllCategories: the list with 200, or 500 on any exception. */
  function GetAllCategoriesRoute(outcome: Attempt<seq<BudgetCategoryItem>>): (resp: Response)
    ensures outcome.Returned? ==> resp == Response(OK, Categories(outcome.value))
    ensures outcome.Threw? ==> resp.status == InternalServerError && resp.body.Message?
  {
    match outcome
    case Returned(categories) => Response(OK, Categories(categories))
    case Threw(e) => Response(InternalServerError, Message("Failed to retrieve budget categories: " + e.message))
  }

  /** GET /budget/getCategoryDetails/{categoryName}: the item with 200, null is 404; an
      IllegalArgumentException is 400 with its message, any other exception 500. */
  function GetCategoryDetailsRoute(outcome: Attempt<(string, Option<BudgetCategoryItem>)>): (resp: Response)
    ensures outcome.Returned? && outcome.value.1.Some? ==> resp == Response(OK, Category(outcome.value.1.value))
    ensures outcome.Returned? && outcome.value.1.None? ==> resp.status == NotFound
    ensures outcome.Threw? && outcome.error.IsIllegalArgument() ==>
      resp == Response(BadRequest, Message(outcome.error.message))
    ensures outcome.Threw? && !outcome.error.IsIllegalArgument() ==> resp.status == InternalServerError
  {
    match outcome
    case Returned((categoryName, details)) =>
      if details.Some? then Response(OK, Category(details.value))
      else Response(NotFound, Message("Category '" + categoryName + "' not found for user."))
    case Threw(e) =>
      if e.IsIllegalArgument() then Response(BadRequest, Message(e.message))
      else Response(InternalServerError, Message("Failed to retrieve category details: " + e.message))
  }

  // ---- Routes over the service: what a request does to the table and what it answers ----

  /** The key every route addresses for a category name. */
  function UserKey(categoryName: string): (key: BudgetStore.Key) {
    BudgetStore.Key(BudgetStore.DefaultUserId, categoryName)
  }

  /** POST /budget/addCategory over the table; `body` is what `call.receive` produced.
      The service only ever returns "updated" or "created", so the 500 branch is never taken. */
  function HandleAddCategory(t: Table, body: Attempt<BudgetStore.AddBudgetCategoryRequest>): (r: (Table, Response))
    ensures body.Threw? ==> r.0 == t && r.1.status == BadRequest
    ensures body.Returned? ==>
      var key := UserKey(body.value.categoryName);
      && r.0 == BudgetStore.AddOrUpdateCategory(t, BudgetStore.DefaultUserId, body.value).table
      && (r.1.status == Created <==> key !in t)
      && (r.1.status == OK <==> key in t)
    ensures r.1.status != InternalServerError
  {
    match body
    case Threw(e) => (t, AddCategoryRoute(Threw(e)))
    case Returned(request) =>
      var s := BudgetStore.AddOrUpdateCategory(t, BudgetStore.DefaultUserId, request);
      (s.table, AddCategoryRoute(Returned((request, s.result))))
  }

  /** POST /budget/recordSpend over the table on date `today`. A missing category is 404 and
      an undecodable history 400, both with the table unchanged; otherwise 200 with the
      message carrying the new total exactly as the service printed it. */
  function HandleRecordSpend(t: Table, body: Attempt<BudgetStore.RecordSpendRequest>, today: Date): (r: (Table, Response))
    ensures body.Threw? ==> r.0 == t && r.1.status == BadRequest
    ensures body.Returned? ==>
      var request, key := body.value, UserKey(body.value.categoryName);
      && r.0 == BudgetStore.RecordSpend(t, BudgetStore.DefaultUserId, request, today).table
      && (key !in t ==>
            r == (t, Response(NotFound, Message("Budget category '" + request.categoryName + "' not found for user."))))
      && (key in t && t[key].transactionHistory.Malformed? ==> r.0 == t && r.1.status == BadRequest)
      && (key in t && !t[key].transactionHistory.Malformed? ==>
            r.1 == Response(OK, Message(SpendRecordedMessage(request.categoryName,
                                          FormatAmount(t[key].spentAmountSoFar + request.amountSpent)))))
    ensures r.1.status != InternalServerError
  {
    match body
    case Threw(e) => (t, RecordSpendRoute(Threw(e)))
    case Returned(request) =>
      var s := BudgetStore.RecordSpend(t, BudgetStore.DefaultUserId, request, today);
      match s.result
      case Threw(e) => (s.table, RecordSpendRoute(Threw(e)))
      case Returned(result) =>
        var key := UserKey(request.categoryName);
        if key in t then
          var total := FormatAmount(t[key].spentAmountSoFar + request.amountSpent);
          FormatAmountHasNoColon(t[key].spentAmountSoFar + request.amountSpent);
          assert result == BudgetStore.SuccessPrefix + total;
          assert result[|BudgetStore.SuccessPrefix|..] == total;
          (s.table, RecordSpendRoute(Returned((request, result))))
        else
          (s.table, RecordSpendRoute(Returned((request, result))))
  }

  /** DELETE /budget/deleteCategory/{categoryName} over the table: 200 when the row existed
      and is now gone, 404 when there was none, 400 when the parameter is missing. */
  function HandleDeleteCategory(t: Table, parameter: Option<string>): (r: (Table, Response))
    ensures parameter.None? ==> r == (t, Response(BadRequest, Message("Category name missing")))
    ensures parameter.Some? ==>
      var key := UserKey(parameter.value);
      && r.0 == t - {key}
      && (r.1.status == OK <==> key in t)
      && (r.1.status == NotFound <==> key !in t)
  {
    match RequireParameter(parameter)
    case Threw(e) => (t, DeleteCategoryRoute(Threw(e)))
    case Returned(categoryName) =>
      var s := BudgetStore.DeleteCategory(t, BudgetStore.DefaultUserId, categoryName);
      (s.table, DeleteCategoryRoute(Returned((categoryName, s.result))))
  }

  /** GET /budget/getCategoryDetails/{categoryName} over the table: 200 with the snapshot,
      404 when there is no row, 400 when the parameter is missing -- and 400 as well when the
      stored history cannot be decoded, since the decoder's exception is an IllegalArgumentException. */
  function HandleGetCategoryDetails(t: Table, parameter: Option<string>): (resp: Response)
    ensures parameter.None? ==> resp == Response(BadRequest, Message("Category name missing"))
    ensures parameter.Some? ==>
      var key := UserKey(parameter.value);
      && (resp.status == NotFound <==> key !in t)
      && (key in t && t[key].transactionHistory.Malformed? ==> resp.status == BadRequest)
      && (key in t && !t[key].transactionHistory.Malformed? ==>
            resp.status == OK && resp.body.Category? &&
            BudgetStore.CategoryItem(parameter.value, t[key]) == Returned(resp.body.item))
    ensures resp.status != InternalServerError
  {
    match RequireParameter(parameter)
    case Threw(e) => GetCategoryDetailsRoute(Threw(e))
    case Returned(categoryName) =>
      match BudgetStore.CategoryDetails(t, BudgetStore.DefaultUserId, categoryName)
      case Threw(e) => GetCategoryDetailsRoute(Threw(e))
      case Returned(details) => GetCategoryDetailsRoute(Returned((categoryName, details)))
  }
}
