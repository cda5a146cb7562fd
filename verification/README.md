# Expense tracker, modelled in Dafny

This project models an expense tracker. Users keep income and expense
transactions, optionally filed under categories of their own. The repository
has two back-end route files, two front ends, and a script that sets up the
database.

- **The transaction routes** (`expense-tracker/backend/src/routes/transactions.js`).
  The list endpoint builds two parameterised MySQL statements from the query
  string: a data query and a count query. The data query's WHERE clause is
  grown one condition and one bound value at a time, and it is sorted and
  paginated. The count query counts the matching rows for the envelope.
  Create, update and delete validate the body and check that the caller owns
  the transaction and the category.
- **The category routes** (`expense-tracker/backend/src/routes/categories.js`).
  A name is required, and the type defaults to `expense`. A duplicate name for
  the same user is a 409. Update and delete check ownership first. Deleting a
  category sets the category of its transactions to NULL.
- **The database** both route files share (`store.dfy`). It is a class holding
  one map from id to row per table, with AUTO_INCREMENT counters. `Valid` is
  what the engine enforces: primary keys, the unique (user, name) key and the
  foreign key. `Consistent` is what the routes keep on top of that. The SQL the
  list sends is a sequence of pieces, literal text or a `?` placeholder, so
  placeholders can be counted. What the engine does with a statement and its
  values is the function `RunData`/`RunCount`. A WHERE condition is kept as
  what it says (`Condition`); its text is `Text`, and `Holds` is its meaning
  once its placeholders are bound.
- **The offline front end** (`frontend/src/pages/Transactions.jsx` and
  `Dashboard.jsx`). It keeps its records in browser storage
  and edits them as lists: save as an edit in place or an append, delete by id,
  filter, four sort orders, and the dashboard totals and "latest five". The
  page state is a class whose fields the handlers update. `Array.prototype.sort`
  is an in-place insertion sort on an array, proved to compute the stable
  functional sort `Sorting.SortBy`.
- **The categories page** (`frontend/src/pages/Categories.jsx`). It is
  server-backed: it loads, creates, updates and deletes through `categoriesAPI`
  of `frontend/src/lib/api.js`, and keeps the list only in the page's state,
  a class whose handlers replace, append or remove by id.
- **The server-backed dashboard** (`expense-tracker/frontend/src/pages/Dashboard.jsx`):
  its statistics and recent-activity list.
- **Both API clients** (`frontend/src/lib/api.js` and
  `expense-tracker/frontend/src/lib/api.js`). Covered: the request and response
  interceptors, login, register and logout over a `localStorage` class, the
  demo mode of the second client, and the `transactionsAPI.getAll` URL with its
  `application/x-www-form-urlencoded` query string.
- **The set-up script** (`expense-tracker/backend/setup-db.js`). It splits the
  schema at `;`, drops the blank pieces, and runs the rest in order on a
  connection that records what it is sent.

The project proves the properties the code promises. Among them:

- Every statement the list sends has as many placeholders as bound values, and
  its first value is the caller's id.
- The listed rows are exactly the caller's stored transactions that the filters
  select, in ORDER BY order, and at most `limit` of them.
- Validation runs in its fixed order, and every mutation keeps the database
  invariants.
- The front-end list updates change the edited element only, or append one,
  or remove exactly the matching elements.
- The sorted views are permutations in the promised order.

The count query of the list endpoint applies the data query's filters, except
that its text search looks at the description only, not at the category name
(expense-tracker/backend/src/routes/transactions.js:46-48 against 106-109).
`TransactionFilters.CountMissesExample` exhibits a row that is listed but not
counted, and `TransactionFilters.CountAgreesWithoutSearch` shows that the two
queries agree when there is no search text.

## Model

| member | source | states |
|---|---|---|
| TransactionFilters.Text | expense-tracker/backend/src/routes/transactions.js:46-72 | each condition's SQL text has exactly as many `?` as values the route pushes with it: two for the search, one for each other filter |
| TransactionFilters.WithConditionsPlaceholders | expense-tracker/backend/src/routes/transactions.js:74-77 | appending `' AND ' + conditions.join(' AND ')` to the base text adds exactly the conditions' placeholders and no others |
| TransactionFilters.MatchesAppend | expense-tracker/backend/src/routes/transactions.js:76 | an AND of conditions splits at any point, each part with its own slice of the bound values |
| TransactionFilters.PartMeaning | expense-tracker/backend/src/routes/transactions.js:45-72 | each optional filter adds at most one condition, with one value per placeholder, and that bound condition selects exactly the rows the filter describes (the `%q%` LIKE as substring containment) |
| TransactionFilters.ConditionsMeaning | expense-tracker/backend/src/routes/transactions.js:45-72 | the conditions of the first n filters come with a value per placeholder, and a row matches them iff it satisfies every one of those filters |
| TransactionFilters.ArgsArity | expense-tracker/backend/src/routes/transactions.js:46-72 | the values pushed fill the placeholders of the conditions pushed, one for one |
| TransactionFilters.DataMeaning | expense-tracker/backend/src/routes/transactions.js:45-72 | the bound data-query conditions select exactly the rows whose description or category name contains `q`, whose type is the `income`/`expense` filter, whose category is the given one and whose date lies in the range |
| TransactionFilters.CountMeaning | expense-tracker/backend/src/routes/transactions.js:106-129 | the bound count-query conditions select the same rows, except that `q` must occur in the description |
| TransactionFilters.CountFollowsData | expense-tracker/backend/src/routes/transactions.js:102-133 | the count query has as many conditions as the data query, in the same order, each the data query's condition with the column unqualified and the category-name search dropped |
| TransactionFilters.OtherKindsIgnored | expense-tracker/backend/src/routes/transactions.js:52-55 | a `type` other than exactly `income` or `expense` adds no condition and no value to either query: both are as if no type had been given (lines 111-114 likewise) |
| TransactionFilters.CountAgreesWithoutSearch | expense-tracker/backend/src/routes/transactions.js:106-109 | without a search text, a row is counted iff it is selected by the data query |
| TransactionFilters.CountMissesCategoryMatch | expense-tracker/backend/src/routes/transactions.js:106-109 | with a search text, a listed row whose description does not contain it is not counted, and was listed through its category name |
| TransactionFilters.CountMissesExample | expense-tracker/backend/src/routes/transactions.js:46-48 | searching `Groceries` lists a transaction without description in category `Groceries`, and the count query does not count it |
| TransactionFilters.BuildDataFilter | expense-tracker/backend/src/routes/transactions.js:42-72 | the pushes build exactly the data conditions, and a parameter list that is the caller's id followed by each filter's values in the order q (twice), type, category, start date, end date |
| TransactionFilters.BuildCountFilter | expense-tracker/backend/src/routes/transactions.js:102-129 | the pushes build exactly the count conditions, and the caller's id followed by the count values (the pattern once) |
| TransactionRoutes.StatementPlaceholders | expense-tracker/backend/src/routes/transactions.js:91-102 | the data statement has 3 placeholders besides its conditions' (user id, LIMIT, OFFSET), and the count statement 1 |
| TransactionRoutes.Joins | expense-tracker/backend/src/routes/transactions.js:37-38 | the LEFT JOIN pairs each transaction with its category's name, or NULL when it has none |
| TransactionRoutes.CandidatesStored | expense-tracker/backend/src/routes/transactions.js:37-39 | the joined rows the engine scans are exactly the stored transactions, each with its category's name |
| TransactionRoutes.OrderConsistent | expense-tracker/backend/src/routes/transactions.js:91 | `ORDER BY t.<date, amount or created_at> ASC or DESC` orders every pair of rows and is transitive |
| TransactionRoutes.Window | expense-tracker/backend/src/routes/transactions.js:95-96 | `LIMIT l OFFSET o` keeps the rows from position o onwards, at most l of them, in order |
| TransactionRoutes.WindowsTile | expense-tracker/backend/src/routes/transactions.js:94-96 | consecutive windows joined give the window of their combined length: page after page reproduces the result in order |
| TransactionRoutes.Offset | expense-tracker/backend/src/routes/transactions.js:94 | `(parseInt(page) - 1) * parseInt(limit)` is a number iff both parse (in base 16 after `0x`), NaN otherwise |
| TransactionRoutes.HexPageWindow | expense-tracker/backend/src/routes/transactions.js:94-96 | `?page=0x2&limit=10` reads page 2 and limit 10, so the window is valid at offset 10 |
| TransactionRoutes.HexLimitEmpty | expense-tracker/backend/src/routes/transactions.js:96 | `?limit=0x` binds NaN for LIMIT, so the window is not valid |
| JsNumber.ParseInt | expense-tracker/backend/src/routes/transactions.js:94-96 | `parseInt` without a radix: after the sign, a `0x`/`0X` prefix is followed by hexadecimal digits and is NaN without one; anything else is the decimal reading |
| JsNumber.ParseIntHex | expense-tracker/backend/src/routes/transactions.js:94 | `parseInt("0x10")` is 16 |
| JsNumber.ParseIntHexDigit | expense-tracker/backend/src/routes/transactions.js:94 | `parseInt("0x2")` is 2 |
| JsNumber.ParseIntHexEmpty | expense-tracker/backend/src/routes/transactions.js:94 | `parseInt("0x")` is NaN |
| JsNumber.ParseIntTen | expense-tracker/backend/src/routes/transactions.js:94 | `parseInt("10")` is 10 |
| JsNumber.ParseIntString | expense-tracker/frontend/src/lib/api.js:164 | `parseInt(String(n))` is `n` for every integer `n` |
| JsNumber.ParseDecimal | expense-tracker/backend/src/routes/transactions.js:58-60 | MySQL reads a bound text against an integer column by its leading decimal digits; no number without a digit |
| JsNumber.ParseFloat | frontend/src/pages/Transactions.jsx:62 | NaN iff there is no digit before the point and none right after it; when a number, its whole part is the digits before the point |
| JsNumber.FractionValue | frontend/src/pages/Transactions.jsx:62 | the digits after the point add less than one |
| JsNumber.ParseFloatDecimal | frontend/src/pages/Transactions.jsx:62 | `parseFloat` of `w.ds` is the whole digits `w` plus the digits `ds` over ten to their count |
| JsNumber.ParseFloatNegativeDecimal | frontend/src/pages/Transactions.jsx:62 | `parseFloat` of `-w.ds` is the negation of that value |
| JsNumber.ParseFloatIntString | expense-tracker/frontend/src/lib/api.js:264 | `parseFloat(String(n))` is `n` for every integer `n` |
| TransactionRoutes.Expected | expense-tracker/backend/src/routes/transactions.js:11-152 | the reference reply: 400 iff `sort_by` or `sort_order` is unknown, 500 iff they are known and the window is not, and otherwise at most `limit` rows with `total` the counted rows and `page` the parsed page |
| TransactionRoutes.RunData | expense-tracker/backend/src/routes/transactions.js:99 | the engine refuses a statement whose values do not fill its placeholders or whose LIMIT/OFFSET are not non-negative integers, and returns at most LIMIT rows |
| TransactionRoutes.AsValue | expense-tracker/backend/src/routes/transactions.js:96 | a parsed limit or offset is bound as that integer, and NaN as NaN |
| TransactionRoutes.Pages | expense-tracker/backend/src/routes/transactions.js:144 | `Math.ceil(total / limit)`: the least p with total <= p * limit, and none (JSON null) for a zero limit |
| TransactionRoutes.PagesCover | expense-tracker/backend/src/routes/transactions.js:141-144 | the `pages` pages of `limit` rows together show every row, and the last of them is not empty |
| TransactionRoutes.DataSelects | expense-tracker/backend/src/routes/transactions.js:39-72 | the bound data statement selects exactly the caller's rows that the filters select |
| TransactionRoutes.CountSelects | expense-tracker/backend/src/routes/transactions.js:102-135 | the bound count statement selects exactly the caller's rows that the count filters select |
| TransactionRoutes.DataRun | expense-tracker/backend/src/routes/transactions.js:91-99 | the data statement as sent fills its placeholders, and the engine returns the window of the sorted selected rows, or an error for a LIMIT or OFFSET that is not a non-negative integer |
| TransactionRoutes.CountRun | expense-tracker/backend/src/routes/transactions.js:102-136 | the count statement as sent fills its placeholders, and the engine returns the number of rows it selects |
| TransactionRoutes.List | expense-tracker/backend/src/routes/transactions.js:11-152 | the reply is the specified reply (400 for an unknown `sort_by`, then `sort_order`, 500 for a bad window, otherwise rows and `{page, limit, total, pages}`); neither 400 sends a statement; the data statement carries the caller's id, the filter values, limit and offset; every statement sent has as many `?` as values, the caller's id first |
| TransactionRoutes.ListingScoped | expense-tracker/backend/src/routes/transactions.js:39-42 | every listed row belongs to the caller, is a stored transaction joined with its category's name, and satisfies the filters |
| TransactionRoutes.ListedComplete | expense-tracker/backend/src/routes/transactions.js:39-72 | every stored transaction of the caller that the filters select is among the rows the data query orders and windows |
| TransactionRoutes.ListingSorted | expense-tracker/backend/src/routes/transactions.js:91-96 | the listed rows are in the requested order, and there are at most `limit` of them |
| TransactionRoutes.ListingTotalWithoutSearch | expense-tracker/backend/src/routes/transactions.js:102-144 | without a search text, `total` is the number of matching rows, and `pages` pages of `limit` rows show all of them |
| TransactionRoutes.DefaultWindow | expense-tracker/backend/src/routes/transactions.js:21-22 | with no `page` and `limit` the window is page 1 of 50 rows at offset 0 |
| TransactionRoutes.Check | expense-tracker/backend/src/routes/transactions.js:159-170 | 400 in order: amount, date or type missing; type not `income`/`expense`; amount parsing to at most 0 (NaN passes); otherwise the values stored: `parseFloat(amount)`, the description or `''`, and the category id or null when it is falsy (PUT lines 224-235 likewise) |
| TransactionRoutes.Create | expense-tracker/backend/src/routes/transactions.js:155-216 | a failed check is a 400 with its message and no change; a category not owned by the caller is 400 `Invalid category`; a NaN amount is an engine error (500, a modelling assumption listed under "## Left out"); otherwise the caller's new row is stored under the next id and returned with its category name (201), and the invariants hold |
| TransactionRoutes.Update | expense-tracker/backend/src/routes/transactions.js:219-291 | after the checks: 404 and no change unless the caller owns the transaction, then 400 for a category not owned, 500 for a NaN amount; otherwise only that row's amount, description, date, type and category change |
| TransactionRoutes.Delete | expense-tracker/backend/src/routes/transactions.js:294-321 | 404 and no change unless the caller owns the transaction; otherwise exactly that row goes |
| CategoryRoutes.Check | expense-tracker/backend/src/routes/categories.js:29-38 | 400 "Category name is required" for a missing or empty name, then 400 for a type outside the enumeration; the type defaults to `expense`; a missing or empty description is stored as `''` (PUT lines 65-74 likewise) |
| CategoryRoutes.NewestFirstConsistent | expense-tracker/backend/src/routes/categories.js:15 | `ORDER BY created_at DESC` is a consistent order |
| CategoryRoutes.List | expense-tracker/backend/src/routes/categories.js:11-24 | 200 with exactly the caller's stored categories, each once (distinct ids), newest first |
| CategoryRoutes.Create | expense-tracker/backend/src/routes/categories.js:27-59 | a failed check is a 400 with no change; a name the caller already uses is 409 with no change; otherwise a row with the caller's id, the name, the description (or `''`) and the type is stored under the next id and returned (201) |
| CategoryRoutes.Update | expense-tracker/backend/src/routes/categories.js:62-108 | a failed check is a 400; then 404 and no change unless the caller owns the category; 409 and no change for a name another of the caller's categories has; otherwise only that row's name, description and type change |
| CategoryRoutes.Delete | expense-tracker/backend/src/routes/categories.js:111-137 | 404 and no change unless the caller owns the category; otherwise exactly it goes and its transactions lose their category |
| Store.Detach | expense-tracker/backend/src/routes/categories.js:126-130 | `ON DELETE SET NULL`: the same transactions, those of the deleted category without a category, every other unchanged, none left pointing at it |
| Store.Database.InsertCategory | expense-tracker/backend/src/routes/categories.js:41-56 | ER_DUP_ENTRY (no change) when the user already has the name; otherwise the row is stored under the next AUTO_INCREMENT id, and the unique key holds |
| Store.Database.UpdateCategory | expense-tracker/backend/src/routes/categories.js:89-92 | ER_DUP_ENTRY (no change) for a name another category of the user has; otherwise only the row's name, description and type change; a row not matched is left alone |
| Store.Database.DeleteCategory | expense-tracker/backend/src/routes/categories.js:127-130 | the matched row goes and the foreign key nulls its transactions' category; nothing else changes |
| Store.Database.InsertTransaction | expense-tracker/backend/src/routes/transactions.js:187-190 | an engine error (no change) for a NaN amount or an unknown category; otherwise the row is stored under the next id |
| Store.Database.UpdateTransaction | expense-tracker/backend/src/routes/transactions.js:262-265 | an engine error (no change) for a NaN amount or an unknown category; otherwise only the matched row's five columns change |
| Store.Database.DeleteTransaction | expense-tracker/backend/src/routes/transactions.js:310-313 | only the matched row goes |
| Sql.JoinAndPlaceholders | expense-tracker/backend/src/routes/transactions.js:76 | `join(' AND ')` adds no placeholder: the joined text has those of its fragments |
| Sql.LikeContains | expense-tracker/backend/src/routes/transactions.js:47-48 | `s LIKE '%q%'` holds iff `s` contains `q` |
| SetupDb.StatementsWellFormed | expense-tracker/backend/setup-db.js:41 | no statement contains `;` and none is blank |
| SetupDb.StatementCount | expense-tracker/backend/setup-db.js:41 | there are at most one more statements than `;` in the schema |
| SetupDb.StatementsKeepOrder | expense-tracker/backend/setup-db.js:41-44 | the filter's `trim().length > 0` keeps exactly the pieces that are not blank |
| SetupDb.StatementsOfJoin | expense-tracker/backend/setup-db.js:41 | the statements of two texts joined by `;` are those of the first followed by those of the second: the text's order is kept |
| SetupDb.Connection.Query | expense-tracker/backend/setup-db.js:45 | a query is recorded after those sent before it |
| SetupDb.RunStatements | expense-tracker/backend/setup-db.js:43-47 | the loop sends each non-blank statement once, in order, and nothing else |
| SetupDb.RunStatement | expense-tracker/backend/setup-db.js:44-46 | a statement is sent, after the earlier ones, exactly when it is not blank; otherwise nothing is sent |
| SetupDb.SetupDatabase | expense-tracker/backend/setup-db.js:29-47 | the connection receives the CREATE DATABASE, then the USE, then every statement of the schema in order |
| TransactionsQuery.IncludedUpToMeaning | expense-tracker/frontend/src/lib/api.js:241-249 | the positions of the appended parameters are increasing, and are exactly the truthy parameters except `type=all` |
| TransactionsQuery.PairsMeaning | expense-tracker/frontend/src/lib/api.js:241-249 | the k-th appended pair is the k-th included parameter under its own name, in the fixed order q, type, category_id, start_date, end_date, sort_by, sort_order, page, limit |
| TransactionsQuery.KeysDistinct | expense-tracker/frontend/src/lib/api.js:241-249 | no two parameters share a name |
| TransactionsQuery.AppendParams | expense-tracker/frontend/src/lib/api.js:238-249 | the nine `append` calls build exactly the pairs of the included parameters in the fixed order |
| TransactionsQuery.EncodePlain | expense-tracker/frontend/src/lib/api.js:251 | text of letters, digits and `*-._` is serialised unchanged |
| TransactionsQuery.Serialize | expense-tracker/frontend/src/lib/api.js:251 | the query string holds no `?`, and is empty iff no parameter was appended |
| TransactionsQuery.SerializeSplits | expense-tracker/frontend/src/lib/api.js:251 | the query string has one `&`-separated piece per pair |
| TransactionsQuery.UrlShape | expense-tracker/frontend/src/lib/api.js:251-252 | the URL is exactly `/transactions` without parameters and `/transactions?<qs>` otherwise, with exactly one `?` |
| TransactionsQuery.GetAllUrl | frontend/src/lib/api.js:97-112 | the request URL of `getAll` is built from the included parameters in the fixed order (the same code as expense-tracker/frontend/src/lib/api.js:238-252) |
| ApiDashboard.Rows | expense-tracker/frontend/src/pages/Dashboard.jsx:27 | a missing `transactions` field is the empty list |
| ApiDashboard.TotalIsSumOfKind | expense-tracker/frontend/src/pages/Dashboard.jsx:32-38 | filtering by type and reducing gives the sum of the parsed amounts (a falsy amount as 0) over the rows of that type |
| ApiDashboard.TotalNaN | expense-tracker/frontend/src/pages/Dashboard.jsx:32-38 | a total is NaN iff some row of its type has a non-numeric amount |
| ApiDashboard.TotalAfterAppend | expense-tracker/frontend/src/pages/Dashboard.jsx:32-38 | one more row changes only the total of its own type, by its amount |
| ApiDashboard.ComputeStats | expense-tracker/frontend/src/pages/Dashboard.jsx:32-45 | income and expense are the sums over their types, balance is income minus expense, and the count is the number of rows |
| ApiDashboard.MissingRowsAreEmpty | expense-tracker/frontend/src/pages/Dashboard.jsx:27-45 | without a `transactions` field all statistics are zero |
| ApiDashboard.Recent | expense-tracker/frontend/src/pages/Dashboard.jsx:215 | the recent list is the first min(5, n) rows in the order received |
| ApiDashboard.DashboardRequest | expense-tracker/frontend/src/pages/Dashboard.jsx:23 | the dashboard's request asks for `sort_by=created_at`, `sort_order=desc` and `limit=10`, nothing else |
| LocalRecords.CategoryName | frontend/src/pages/Dashboard.jsx:83-86 | the name of the first category with the id, "Unknown" when none has it (Transactions.jsx:105-108 likewise) |
| LocalRecords.NewestFirstConsistent | frontend/src/pages/Dashboard.jsx:32-36 | ordering by date, then id, both descending is a consistent comparator |
| LocalRecords.OldestFirstConsistent | frontend/src/pages/Transactions.jsx:137-140 | ordering by date, then id, both ascending is a consistent comparator |
| LocalDashboard.TotalIsSumOfKind | frontend/src/pages/Dashboard.jsx:19-25 | a total is the sum of the amounts (non-numeric as 0) of the records of that type |
| LocalDashboard.TotalAfterAppend | frontend/src/pages/Dashboard.jsx:19-25 | one more record changes only the total of its own type |
| LocalDashboard.Summarize | frontend/src/pages/Dashboard.jsx:18-37 | income and expense are the sums over their types, balance is their difference, and the latest list is the newest five |
| LocalDashboard.LatestProperties | frontend/src/pages/Dashboard.jsx:31-37 | the latest list has min(5, n) records, all from the loaded list, newest first, and no record left out is newer than one shown |
| TransactionsPage.AcceptedAmount | frontend/src/pages/Transactions.jsx:60-63 | the save goes on iff date, category and amount are non-empty and the amount parses to a number greater than 0 |
| TransactionsPage.EditById | frontend/src/pages/Transactions.jsx:66-78 | same length; each element with the id is edited (id kept, note trimmed); every other element is unchanged |
| TransactionsPage.SaveResult | frontend/src/pages/Transactions.jsx:60-91 | a rejected form leaves the list unchanged; an edit changes only the elements with `editingId`; a create appends exactly one new record and keeps the prefix |
| TransactionsPage.RemoveById | frontend/src/pages/Transactions.jsx:100 | no element with the id remains, and every other element does |
| TransactionsPage.RemoveByIdAppend | frontend/src/pages/Transactions.jsx:100 | removal keeps the remaining elements in their original order |
| TransactionsPage.RemoveAbsentId | frontend/src/pages/Transactions.jsx:100 | removing an id the list does not hold changes nothing |
| TransactionsPage.FilteredTransactions | frontend/src/pages/Transactions.jsx:115-127 | a record is shown iff the trimmed lower-cased search is empty or occurs in its lower-cased category name or note, the type filter is `all` or its type, and the date filter is empty or its date |
| JsText.ToLowerLength | frontend/src/pages/Transactions.jsx:116-120 | `toLowerCase` makes a string one code unit longer per `İ` and no longer otherwise |
| JsText.ToLowerInPlace | frontend/src/pages/Transactions.jsx:116-120 | without an `İ`, `toLowerCase` replaces each code unit by its small letter in place |
| JsText.LowerCharFixed | frontend/src/pages/Transactions.jsx:116-120 | the lower-case form of any character is left as it is by a second lower-casing |
| JsText.ToLowerIdempotent | frontend/src/pages/Transactions.jsx:116-120 | lower-casing an already lower-cased string changes nothing |
| JsText.AlbanianCapitals | frontend/src/pages/Transactions.jsx:116-120 | `Ë` and `Ç` fold to `ë` and `ç`, so `Ë` is found in `ëmbëlsira` |
| JsText.LowerChar | frontend/src/pages/Transactions.jsx:116-120 | one code unit lower-cased: `İ` becomes `i` and a combining dot, ASCII capitals move by 32, other ASCII and everything from U+0180 on stays |
| JsText.Trim | frontend/src/pages/Transactions.jsx:116 | `trim()` starts and ends with a character that is not white space |
| JsText.TrimMeaning | frontend/src/pages/Transactions.jsx:116 | `trim()` is a middle slice whose cut-off margins are white space |
| JsText.TrimEmptyIffBlank | expense-tracker/backend/setup-db.js:41 | `trim()` is empty iff the text is all white space |
| JsText.IndexOf | frontend/src/pages/Transactions.jsx:121 | the leftmost position of `sub`, and -1 iff `includes` is false |
| JsText.ContainsEmpty | frontend/src/pages/Transactions.jsx:121 | every text includes the empty text |
| JsText.CompareZero | frontend/src/pages/Transactions.jsx:133-140 | `localeCompare` is zero iff the texts are equal |
| JsText.CompareFlip | frontend/src/pages/Transactions.jsx:133-140 | swapping the texts negates `localeCompare` |
| JsText.CompareTransitive | frontend/src/pages/Transactions.jsx:133-140 | `localeCompare(a, b) <= 0` is transitive |
| JsText.SplitJoined | expense-tracker/backend/setup-db.js:41 | splitting `a` + separator + `b` gives the pieces of `a` followed by the pieces of `b` |
| JsText.SplitPiecesHaveNoSeparator | expense-tracker/backend/setup-db.js:41 | no piece of `split(sep)` contains `sep` |
| JsText.JoinSplit | expense-tracker/backend/setup-db.js:41 | joining the pieces with the separator gives back the text |
| JsText.SplitLength | expense-tracker/backend/setup-db.js:41 | there is one more piece than separators |
| TransactionsPage.Precedes | frontend/src/pages/Transactions.jsx:129-147 | an unknown sort mode compares every pair equal, so the filtered order is kept |
| TransactionsPage.SortedTransactions | frontend/src/pages/Transactions.jsx:129-147 | the sorted view has exactly as many records as the filtered list |
| LocalDashboard.Latest | frontend/src/pages/Dashboard.jsx:31-36 | the latest list has min(5, n) records |
| Session.JsonStringPlain | expense-tracker/frontend/src/lib/api.js:66 | `JSON.stringify` writes text without quotes, backslashes or control characters between quotes as it is |
| Session.UserJsonPlain | expense-tracker/frontend/src/lib/api.js:66 | a user with such a name and email is stored as `{"id":…,"username":"…","email":"…"}` |
| TransactionsQuery.Utf8 | expense-tracker/frontend/src/lib/api.js:251 | one to four bytes, a single byte equal to the code point iff it is ASCII, otherwise all at least 128 |
| TransactionsQuery.Encode | expense-tracker/frontend/src/lib/api.js:251 | the serialised name or value holds no `?`, `&` or `=` |
| TransactionsPage.SearchFoldsAccents | frontend/src/pages/Transactions.jsx:116-121 | a search for `Ë` shows a record whose note is `ëmbëlsira` |
| TransactionsPage.NoFilterShowsAll | frontend/src/pages/Transactions.jsx:115-127 | a blank search, type `all` and no date show every record in order |
| TransactionsPage.FilterKeepsOrder | frontend/src/pages/Transactions.jsx:117 | the filter keeps the relative order of the records it shows |
| TransactionsPage.FilteredCategories | frontend/src/pages/Transactions.jsx:110-113 | exactly the categories of the form's type |
| TransactionsPage.PrecedesConsistent | frontend/src/pages/Transactions.jsx:132-144 | the comparator of every sort mode is consistent |
| TransactionsPage.SortedIsPermutation | frontend/src/pages/Transactions.jsx:129-147 | the sorted list holds exactly the filtered records, each as often |
| TransactionsPage.DateDescOrder | frontend/src/pages/Transactions.jsx:133-136 | `date_desc`: later dates first, and on one date the greater id first |
| TransactionsPage.DateAscOrder | frontend/src/pages/Transactions.jsx:137-140 | `date_asc`: earlier dates first, and on one date the smaller id first |
| TransactionsPage.AmountOrder | frontend/src/pages/Transactions.jsx:141-142 | `amount_desc` and `amount_asc` order by amount alone, a missing amount as 0 |
| TransactionsPage.Page.constructor | frontend/src/pages/Transactions.jsx:6-23 | the initial state, with both stored lists loaded |
| TransactionsPage.Page.CloseModal | frontend/src/pages/Transactions.jsx:48-58 | the modal closes, nothing is edited and the form is blank with today's date; the lists are unchanged |
| TransactionsPage.Page.HandleSave | frontend/src/pages/Transactions.jsx:60-96 | a rejected form changes nothing; otherwise the list becomes the save result, is persisted, and the modal closes |
| TransactionsPage.Page.HandleDelete | frontend/src/pages/Transactions.jsx:98-103 | once confirmed the elements with the id are removed and the list is persisted; nothing else changes |
| TransactionsPage.Page.SetFormType | frontend/src/pages/Transactions.jsx:275 | a new form type clears the chosen category and changes nothing else |
| TransactionsPage.Page.SortedView | frontend/src/pages/Transactions.jsx:129-147 | sorting a copy of the filtered records in place gives the stable sort of the filtered list by the current mode |
| Sorting.SortInPlace | frontend/src/pages/Transactions.jsx:130-144 | the in-place sort of the array leaves it holding the stable sort of its old contents |
| Sorting.SortByPermutes | frontend/src/pages/Transactions.jsx:132 | sorting only reorders: the same elements, each as often |
| Sorting.SortBySorted | frontend/src/pages/Transactions.jsx:132 | with a consistent comparator the result is in order |
| CategoriesPage.ReplaceById | frontend/src/pages/Categories.jsx:54-56 | same length; the elements with the id become the updated category; every other element is unchanged |
| CategoriesPage.ReplaceAbsentId | frontend/src/pages/Categories.jsx:54-56 | replacing an id the list does not hold changes nothing |
| CategoriesPage.RemoveById | frontend/src/pages/Categories.jsx:78 | no element with the id remains, and every other element does |
| CategoriesPage.RemoveByIdAppend | frontend/src/pages/Categories.jsx:78 | removal keeps the remaining elements in their original order |
| CategoriesPage.RemoveByIdLength | frontend/src/pages/Categories.jsx:78 | removal drops exactly as many elements as have the id |
| CategoriesPage.Page.constructor | frontend/src/pages/Categories.jsx:5-10 | the initial state: no categories, loading, closed modal, blank form |
| CategoriesPage.Page.Load | frontend/src/pages/Categories.jsx:16-25 | the loaded list replaces the old one (kept when the call fails), and loading ends |
| CategoriesPage.Page.OpenModal | frontend/src/pages/Categories.jsx:27-36 | a category fills the form with its name and type and becomes the one edited; without one the form is blank |
| CategoriesPage.Page.CloseModal | frontend/src/pages/Categories.jsx:38-42 | the form is reset to `{name: "", type: "expense"}` and nothing is edited |
| CategoriesPage.Page.HandleSave | frontend/src/pages/Categories.jsx:44-71 | a blank trimmed name does nothing; otherwise update or create is called with the trimmed name and an empty description; on success the reply replaces the edited element or is appended, and the modal closes |
| CategoriesPage.Page.HandleDelete | frontend/src/pages/Categories.jsx:73-83 | once confirmed the call is made, and on success the elements with the id are removed |
| Session.Storage.GetItem | expense-tracker/frontend/src/lib/api.js:16 | `getItem` returns the stored text, or null for a missing key |
| Session.Storage.ClearSession | expense-tracker/frontend/src/lib/api.js:110-113 | `accessToken` and `user` are removed, every other key stays, and the session is no longer authenticated |
| Session.Storage.StoreSession | expense-tracker/frontend/src/lib/api.js:65-66 | the token goes under `accessToken` and the user's JSON under `user` |
| Session.Storage.StoreReply | expense-tracker/frontend/src/lib/api.js:74-77 | a reply is stored only when it carries a token, and then the session is authenticated |
| ClientApi.AuthorizationHeader | frontend/src/lib/api.js:14-17 | a `Bearer <token>` header iff a token is stored |
| ClientApi.HeaderIffAuthenticated | frontend/src/lib/api.js:68-70 | a request carries the header iff `isAuthenticated` holds |
| ClientApi.HandleError | frontend/src/lib/api.js:30-38 | a 401 removes `accessToken` and `user`; any other error changes nothing; every error is rejected unchanged |
| ClientApi.Login | frontend/src/lib/api.js:48-56 | the reply is returned, and stored only when it carries a token |
| ClientApi.LoginThenHeader | frontend/src/lib/api.js:48-56 | after a login whose reply has a token, requests carry that token |
| ClientApi.Register | frontend/src/lib/api.js:43-46 | register returns the reply and never writes to storage |
| ClientApi.Logout | frontend/src/lib/api.js:58-61 | both session keys go, and no header is sent afterwards |
| DemoClient.AuthorizationHeader | expense-tracker/frontend/src/lib/api.js:16-19 | a `Bearer <token>` header iff a token is stored and does not start with `demo-token` |
| DemoClient.DemoOrAuthorized | expense-tracker/frontend/src/lib/api.js:14-19 | a request is answered in demo mode, or carries the token, or has none to carry, and never two of these |
| DemoClient.FriendlyMessage | expense-tracker/frontend/src/lib/api.js:40-45 | the server's message when there is one, else the "not reachable" text for `ERR_NETWORK`, else the generic text |
| DemoClient.FriendlyMessageNotEmpty | expense-tracker/frontend/src/lib/api.js:40-45 | the message shown is never empty |
| DemoClient.HandleError | expense-tracker/frontend/src/lib/api.js:32-49 | a 401 removes both session keys and rejects the original error; any other error changes nothing and rejects the friendly error with the response and its status |
| DemoClient.LocalPart | expense-tracker/frontend/src/lib/api.js:61 | `email.split('@')[0]`: the longest prefix of the email without `@`, all of it when there is none |
| DemoClient.Register | expense-tracker/frontend/src/lib/api.js:54-80 | with an email and a password, the demo token and a user named by the given username or the email's local part are stored and returned; otherwise the backend's reply, stored only when it has a token |
| DemoClient.Login | expense-tracker/frontend/src/lib/api.js:82-108 | as register, but the username is always the email's local part |
| DemoClient.DemoTokenStaysLocal | expense-tracker/frontend/src/lib/api.js:58 | the stored demo token switches demo mode on and is never sent as a header |
| DemoClient.DemoUserName | expense-tracker/frontend/src/lib/api.js:59-63 | the demo user has id 1, the given email, and the given username or else the email's text before `@` |
| DemoClient.DemoCategoryFields | expense-tracker/frontend/src/lib/api.js:147-152 | a demo category keeps the name, with `description` defaulting to `''` and `type` to `expense` |
| DemoClient.DemoCategoryUpdateMatchesCreate | expense-tracker/frontend/src/lib/api.js:163-168 | a demo update of an integer id keeps that id and otherwise agrees with a demo create |
| DemoClient.DemoTransactionFields | expense-tracker/frontend/src/lib/api.js:262-271 | a demo transaction has `parseFloat(amount)`, the description or `''`, the date and type given, the category id or null when it is falsy, and a null category name |
| DemoClient.DemoTransactionUpdateMatchesCreate | expense-tracker/frontend/src/lib/api.js:281-290 | a demo update of an integer id keeps that id and otherwise agrees with a demo create at the same instant |
| DemoClient.DemoAmountReadsBack | expense-tracker/frontend/src/lib/api.js:264 | an amount typed as decimal digits arrives as that number |
| DemoClient.Answer | expense-tracker/frontend/src/lib/api.js:143-170 | answered locally iff the stored token starts with `demo-token`; otherwise the backend's reply to a request carrying `Bearer <token>` when there is a token and no header when there is none |
| DemoClient.DemoSessionStaysLocal | expense-tracker/frontend/src/lib/api.js:143-305 | after a demo login, creating and updating categories and transactions give the locally built record, deleting does nothing, and no request is sent |
| DemoClient.BackendSessionSendsToken | expense-tracker/frontend/src/lib/api.js:13-20 | with a backend token, every write endpoint sends its request with `Bearer <token>` and returns the backend's reply |
| DemoClient.DemoUpdateEchoesCreate | expense-tracker/frontend/src/lib/api.js:158-170 | in demo mode an update under the text of an integer id echoes that id and otherwise returns what a create of the same input does |

## Left out

- JSX markup and styling, the layouts, `App.jsx` routing and the login and register pages: rendering only.
- Transactions.jsx `openModal`: it copies the record into the form through `amount?.toString?.()`, which writes a floating-point number as text.
- The offline Dashboard's `storage` listener and its one-second polling, `Promise.all`, and races between concurrent requests: timing and concurrency are not modelled.
- axios itself and the `window.location` redirect after a 401. The Express wiring, the auth middleware (not part of this model), and the MySQL pool of both `config/db.js` are also out; the caller's user id is a parameter.
- A server error while listing categories, and the 500 replies of the routes' `catch` blocks for failures other than the ones the model names: connection failures are not modelled.
- `parseFloat`, `toFixed` and `new Date(...)` are reduced. Amounts are reals, and parsing covers optional sign, digits and one decimal point, with no exponents. Dates are ISO text compared as text. `localeCompare` is code-point order.
- LIKE wildcards inside `q`, collation-dependent case-insensitivity (including that of the unique key), and MySQL's DATE validation and type conversion are engine behaviour outside this model. A `category_id` filter is read through its leading integer.
- SQL leaves the order of rows that tie under ORDER BY open. The model keeps ascending id order for ties.
- An AUTO_INCREMENT value burnt by a failed insert, the SELECT column lists, and `created_at`/`updated_at` kept by the engine are not modelled. The creation time is a parameter.
- `category_id` in a request body is a number here. Ids taken from the route path are integers.
- `getCurrentUser` (`JSON.parse` of the stored user) is not modelled.
- `uid()` and `Date.now()` are parameters, as fresh-id and clock oracles.
- The demo mode's fixed category and transaction lists. Its delete is modelled as a local answer that carries nothing.
- setup-db.js reading `database.sql` from disk, the environment-based connection settings, logging, and `process.exit` on error.
- `utils/storage.js` is reduced to the list a page last wrote (`TransactionsPage.Page.stored`).
- TransactionRoutes.List: a NaN or negative LIMIT/OFFSET is modelled as an engine error (500). The model does not follow MySQL's own handling of such values further. `page` and `limit` are read as `parseInt` reads them, `0x` hexadecimal included, but as exact integers: the double `parseInt` returns, and its loss of precision above 2^53, are not modelled.
- TransactionsPage.FilteredTransactions: `toLowerCase` is modelled for Basic Latin, Latin-1 Supplement and Latin Extended-A only (`JsText.LowerChar`), with `İ` becoming `i` and a combining dot. Capitals of other scripts (Greek, Cyrillic and beyond) stay as they are, and the context-dependent final sigma is not modelled.
- JsNumber.ParseInt: the result is an exact integer. `parseInt` returns a double, which loses precision above 2^53; `TransactionRoutes.Offset` and `TransactionRoutes.List` inherit this.
- LocalDashboard.Latest: the offline dashboard sorts with `new Date(b.date)` and `b.id.localeCompare(a.id)` without a default; a record without `id` makes that sort throw, which the model, reading a missing field as `""`, does not capture.
- Store.Database.InsertTransaction: a NaN amount is modelled as an engine error with no change, as is a NaN LIMIT/OFFSET. What mysql2 and MySQL do with a NaN bound to a DECIMAL column is engine behaviour outside this model; `Store.Database.UpdateTransaction`, `TransactionRoutes.Create` and `TransactionRoutes.Update` rest on the same assumption.
