# Budget-category ledger, modelled in Dafny

This project models the server core of the Budget-Planner backend: the `BudgetService`
class that keeps the `Budgets` table, and the `/budget` routes that turn what the service
returns into HTTP status codes.

The `Budgets` table has one row per `(user_id, category)` pair. Each row holds a planned
value (`originalValue`), a running total (`spentAmountSoFar`) and a JSON text column with
the transaction history. The history maps a date to the spends recorded that day, in call
order. The service has five operations:

- `addOrUpdateCategory` inserts a fresh row or changes only the planned value of an existing one.
- `recordSpend` adds the amount to the total and appends an entry to today's bucket.
- `deleteCategory` removes a row.
- `getAllCategories` and `getCategoryDetails` return decoded snapshots.

The main invariant is that a row's running total equals the sum of the amounts in its
history. Every operation keeps it.

Modules, one per concern:

- `Failures` (`failures.dfy`): Kotlin exceptions, `Attempt` (returned or threw), `Option` (nullable).
- `Amounts` (`amounts.dfy`): amounts in whole cents, and the text `"$newSpent"` prints for them.
- `Ledger` (`ledger.dfy`): transaction entries, date buckets, the history total, appending an entry.
- `HistoryColumn` (`history_column.dfy`): the forms the history text column can take, with decode and encode.
- `BudgetStore` (`budget_store.dfy`): the table as a map, and each service operation as a function from the old table to the new table and the result.
- `Service` (`budget_service.dfy`): the `BudgetService` class. Its methods change the `budgets` field in place. Each method's postcondition ties the new table to the matching `BudgetStore` function. A client method replays the Groceries walk-through.
- `Routes` (`budget_routes.dfy`): the status dispatch of each route, Kotlin's `split`, and the `Handle*` functions that compose a route with the service.

Modelling choices:

- Amounts are whole cents (`int`), not `Double`s.
- `FormatAmount` prints a cent value the way Kotlin's `Double.toString` prints it: `4550` → `45.5`, `30000` → `300.0`.
- The user id is the constant `1`, as in the source (`DefaultUserId`). Operations take it as a parameter, and their frame conditions say that other keys, and so other users' rows, are untouched.
- The clock `LocalDate.now()` becomes the parameter `today`.
- The JSON column is the datatype `HistoryText` with four cases:
  - `EmptyText` is `""`.
  - `EmptyObject` is `"{}"`.
  - `Json(h)` is the encoding of a non-empty history.
  - `Malformed(text, reason)` is text the decoder rejects.
- The JSON syntax itself is not modelled.
- A route is a function of what its `try` block produced: a value, or the exception thrown.

One library fact matters here. kotlinx.serialization's `SerializationException` is a subclass
of `IllegalArgumentException`. So when a stored history cannot be decoded,
`getCategoryDetails` answers 400 with the decoder's message, not 500. `getAllCategories`
catches every exception and answers 500. `recordSpend` answers 400, and its transaction
leaves the row unchanged.

## Model

| member | source | states |
|---|---|---|
| `Amounts.FormatAmountHasNoColon` | backend/src/main/kotlin/com/example/service/BudgetService.kt:70 | The printed total `$newSpent` never contains a colon. |
| `Amounts.FormatAmountInjective` | backend/src/main/kotlin/com/example/service/BudgetService.kt:70 | Two different totals never print the same text. |
| `Ledger.AppendEntry` | backend/src/main/kotlin/com/example/service/BudgetService.kt:59-62 | `getOrPut(date){…}.add(entry)`. The new entry goes at the end of the date's bucket, and the bucket is created when missing. Earlier entries, the other buckets and the other dates are unchanged. |
| `Ledger.HistoryTotalAppend` | backend/src/main/kotlin/com/example/service/BudgetService.kt:49-68 | Appending an entry raises the sum over the whole history by exactly the entry's amount. This matches `newSpent = currentSpent + amountSpent`. |
| `HistoryColumn.Decode` | backend/src/main/kotlin/com/example/service/BudgetService.kt:51-57 | `""` and `"{}"` read as the empty history. The encoding of a history decodes to that history. Decoding throws a serialization exception exactly when the text is malformed. |
| `HistoryColumn.Encode` | backend/src/main/kotlin/com/example/service/BudgetService.kt:64 | The encoder writes only canonical text. It writes `"{}"` exactly for the empty history. |
| `HistoryColumn.DecodeEncode` | backend/src/main/kotlin/com/example/service/BudgetService.kt:54-64 | Decoding what was encoded gives back the same history. |
| `HistoryColumn.EncodeDecode` | backend/src/main/kotlin/com/example/service/BudgetService.kt:54-64 | Re-encoding decoded canonical text gives back the same text. |
| `BudgetStore.NewRow` | backend/src/main/kotlin/com/example/service/BudgetService.kt:28-34 | A new row has zero spend and history `"{}"` (the column defaults in Budgets.kt:10-11), and its total agrees with its history. |
| `BudgetStore.AddOrUpdateCategory` | backend/src/main/kotlin/com/example/service/BudgetService.kt:17-37 | Afterwards the key has exactly one row, with the requested planned value, and no other row changes. An existing key answers "updated" and keeps its spend and history. A missing key answers "created" and gets a fresh row. |
| `BudgetStore.RecordSpend` | backend/src/main/kotlin/com/example/service/BudgetService.kt:39-71 | A missing category answers "notFound" and leaves the table unchanged. An undecodable history throws and leaves the table unchanged. Otherwise the keys stay the same and only the addressed row changes. Its planned value stays, its total grows by the amount, its history becomes the encoding of the old one with the entry appended on `today`, and the answer is `"success:"` followed by the new total. |
| `BudgetStore.DeleteCategory` | backend/src/main/kotlin/com/example/service/BudgetService.kt:73-75 | Removes exactly the addressed key, and no other row changes. Returns the number of rows removed: 1 if the key was present, 0 if not. |
| `BudgetStore.CategoryItem` | backend/src/main/kotlin/com/example/service/BudgetService.kt:100-115 | The snapshot of a row carries its category, planned value, total and decoded history. It throws exactly when the history is malformed. |
| `BudgetStore.CategoryDetails` | backend/src/main/kotlin/com/example/service/BudgetService.kt:97-116 | Null exactly when the key has no row. Throws exactly when the row's history is malformed. Otherwise returns the row's snapshot. On a consistent table it never throws, and the snapshot's total is the sum over its history. |
| `BudgetStore.AddKeepsConsistent` | backend/src/main/kotlin/com/example/service/BudgetService.kt:22-35 | `addOrUpdateCategory` keeps every row's total equal to the sum over its history. |
| `BudgetStore.RecordSpendKeepsConsistent` | backend/src/main/kotlin/com/example/service/BudgetService.kt:48-69 | `recordSpend` keeps every row's total equal to the sum over its history, because it updates the total and the history together. On a consistent table it also never throws. |
| `BudgetStore.DeleteKeepsConsistent` | backend/src/main/kotlin/com/example/service/BudgetService.kt:73-75 | `deleteCategory` keeps every remaining row consistent. |
| `BudgetStore.AddIsIdempotent` | backend/src/main/kotlin/com/example/service/BudgetService.kt:18-26 | Repeating the same add answers "updated" and changes nothing. |
| `BudgetStore.AddAllRows` | backend/src/main/kotlin/com/example/service/BudgetService.kt:17-37 | After any sequence of adds, a key has a row exactly when it had one before or some add named it. A row that existed keeps its spend and history. A row that was created has zero spend and `"{}"`. A row never named is unchanged. The planned value is the one the last add for that name gave. |
| `BudgetStore.TwoSpendsSameDay` | backend/src/main/kotlin/com/example/service/BudgetService.kt:59-68 | Two spends on the same day both land in that day's bucket in call order, and the total grows by both amounts. |
| `BudgetStore.DeleteThenRead` | backend/src/main/kotlin/com/example/service/BudgetService.kt:73-100 | After a delete, `getCategoryDetails` answers null and the set of the user's keys that `getAllCategories` selects excludes the key. `Service.DeleteThenReadAll` states it on the list itself. |
| `Service.BudgetService.AddOrUpdateCategory` | backend/src/main/kotlin/com/example/service/BudgetService.kt:17-37 | Updates the table in place to `BudgetStore.AddOrUpdateCategory` of the old table, returns its tag, and keeps the consistency invariant. |
| `Service.BudgetService.RecordSpend` | backend/src/main/kotlin/com/example/service/BudgetService.kt:39-71 | Looks up the row, decodes it, does getOrPut and add on the history, and writes back the total and the encoded history. The new table and the result are those of `BudgetStore.RecordSpend`. Keeps the invariant, and on a consistent table it answers without throwing. |
| `Service.BudgetService.DeleteCategory` | backend/src/main/kotlin/com/example/service/BudgetService.kt:73-75 | Removes the row in place, returns the number of rows deleted, and keeps the invariant. |
| `Service.BudgetService.GetAllCategories` | backend/src/main/kotlin/com/example/service/BudgetService.kt:77-95 | Throws exactly when some row of the user has an undecodable history, and the error is that row's. Otherwise returns one faithful snapshot per row of the user, each row exactly once, in no guaranteed order. On a consistent table it never throws, and every snapshot's total is the sum over its history. |
| `Service.BudgetService.GetCategoryDetails` | backend/src/main/kotlin/com/example/service/BudgetService.kt:97-116 | Reads the current table through `BudgetStore.CategoryDetails`. While the invariant holds it never throws, and a returned snapshot's total is the sum over its history. |
| `Service.DeleteThenReadAll` | backend/src/main/kotlin/com/example/service/BudgetService.kt:73-95 | After `deleteCategory`, no item that `getAllCategories` returns has the deleted category. |
| `Routes.Split` | backend/src/main/kotlin/com/example/routes/BudgetRoutes.kt:35 | Kotlin's `split`: there is at least one piece, and no piece contains the separator. |
| `Routes.JoinSplit` | backend/src/main/kotlin/com/example/routes/BudgetRoutes.kt:35 | Joining the pieces with the separator gives back the original text. |
| `Routes.SuccessSplit` | backend/src/main/kotlin/com/example/routes/BudgetRoutes.kt:34-35 | `("success:" + total).split(":")` is `["success", total]` when `total` has no colon. |
| `Routes.SuccessTagPieces` | backend/src/main/kotlin/com/example/routes/BudgetRoutes.kt:34-35 | Every tag starting with `"success:"` has a second piece, so `split(":")[1]` cannot fail. That piece is the rest of the text when the rest has no colon. |
| `Routes.AddCategoryRoute` | backend/src/main/kotlin/com/example/routes/BudgetRoutes.kt:14-26 | Any exception gives 400. For a result, "updated" gives 200, "created" gives 201, and any other tag gives 500. |
| `Routes.RecordSpendRoute` | backend/src/main/kotlin/com/example/routes/BudgetRoutes.kt:28-43 | Any exception gives 400. "notFound" gives 404. A tag starting with "success:" gives 200, with the text after the colon in the message. Any other tag gives 500. |
| `Routes.SpendMessageIdentifiesTotal` | backend/src/main/kotlin/com/example/routes/BudgetRoutes.kt:35-36 | The 200 message of `recordSpend` determines the new total uniquely. |
| `Routes.DeleteCategoryRoute` | backend/src/main/kotlin/com/example/routes/BudgetRoutes.kt:45-59 | A positive row count gives 200, otherwise 404. An `IllegalArgumentException` gives 400 with its message. Any other exception gives 500. |
| `Routes.GetAllCategoriesRoute` | backend/src/main/kotlin/com/example/routes/BudgetRoutes.kt:61-68 | The list is sent with 200. An exception gives 500. |
| `Routes.GetCategoryDetailsRoute` | backend/src/main/kotlin/com/example/routes/BudgetRoutes.kt:70-84 | An item gives 200 with the item. Null gives 404. An `IllegalArgumentException` gives 400 with its message. Any other exception gives 500. |
| `Routes.HandleAddCategory` | backend/src/main/kotlin/com/example/routes/BudgetRoutes.kt:14-26 | End to end over the table: a missing key gives 201, an existing key gives 200, and a bad body gives 400 with the table unchanged. The 500 branch is never reached. |
| `Routes.HandleRecordSpend` | backend/src/main/kotlin/com/example/routes/BudgetRoutes.kt:28-43 | End to end: an unknown category gives 404 with the table unchanged. An undecodable history gives 400 with the table unchanged. Otherwise the answer is 200, and its message carries exactly the new total as the service printed it. The 500 branch is never reached. |
| `Routes.HandleDeleteCategory` | backend/src/main/kotlin/com/example/routes/BudgetRoutes.kt:45-59 | End to end: a missing parameter gives 400 with the message "Category name missing" and the table unchanged. Otherwise the key's row is removed, and the answer is 200 exactly when the row existed and 404 exactly when it did not. |
| `Routes.HandleGetCategoryDetails` | backend/src/main/kotlin/com/example/routes/BudgetRoutes.kt:70-84 | End to end: a missing parameter gives 400 with the message "Category name missing". A missing row gives 404. A malformed history gives 400. Otherwise the answer is 200 with the row's snapshot. The 500 branch is never reached. |

## Left out

- Amounts: `Double` arithmetic, binary rounding (`0.1 + 0.2`), NaN and infinities are not modelled. Amounts are exact cents.
- FormatAmount: Kotlin prints magnitudes of 10^7 and above in E-notation (`1.0E7`). The model always prints plain decimals.
- The JSON text format of the history column, and the kotlinx.serialization encoder and decoder, are not modelled. `HistoryText` stands for the text, and `Malformed` for text the decoder rejects, carrying the decoder's message.
- Entry order inside JSON objects: `Json.encodeToString` keeps the insertion order of the `LinkedHashMap`. The model's history is a `map`, which has no key order.
- Exposed's `transaction { }`, the database round trips, and isolation between concurrent requests are not modelled. Each operation is one atomic step on the table.
- Database failures are not modelled: lost connections, and the 255-character limit of the `category` column (Budgets.kt:8). The routes still take any exception as input.
- The `user_id` foreign key to `Users` and the seeding of user 1 at start-up are not modelled. The database layer does both.
- Ktor's `call.receive` and `call.respond` are not modelled. The request body is an `Attempt` of the decoded request, and the response holds a status and a body value.
- A null `localizedMessage` is not modelled. Every exception carries a message string.
- Server, CORS and JSON content-negotiation setup, the superseded `Tables.kt` schema, and the React frontend are not modelled. The frontend is the only place that checks for non-empty fields; the backend accepts any name, amount and description, and so does the model.
- HistoryColumn.DecodeEncode, HistoryColumn.EncodeDecode: these hold by construction of the abstract `HistoryText`. They stand for the round-trip property of kotlinx.serialization that the service relies on; they do not prove it of the real JSON codec.
