/**
 * The transaction routes (expense-tracker/backend/src/routes/transactions.js):
 * the filtered, sorted and paginated list, and create, update and delete,
 * each scoped to the caller's user id. The list sends two statements to
 * MySQL; what the engine makes of a statement and its bound values is
 * `RunData` and `RunCount`. The clock is the parameter `now`.
 */
module TransactionRoutes {
  import opened Wrappers
  import JsText
  import JsNumber
  import ListOps
  import Sorting
  import Sql
  import Store
  import opened TransactionFilters

  /** The `pagination` object of the list reply. `pages` is `None` where
      `Math.ceil(total / 0)` gives Infinity or NaN, which JSON writes as null. */
  datatype Pagination = Pagination(page: int, limit: nat, total: nat, pages: Option<nat>)

  datatype Payload =
    | Message(text: string)
    | One(transaction: Store.JoinedRow)
    | Listing(transactions: seq<Store.JoinedRow>, pagination: Pagination)

  /** The status code and the JSON body of a response. */
  datatype Reply = Reply(status: nat, payload: Payload)

  const FieldsRequired := "Amount, date, and type are required"
  const TypeInvalid := "Type must be income or expense"
  const AmountInvalid := "Amount must be greater than 0"
  const CategoryInvalid := "Invalid category"
  const NotFound := "Transaction not found"
  const Deleted := "Transaction deleted successfully"
  const SortByInvalid := "Invalid sort_by parameter"
  const SortOrderInvalid := "Invalid sort_order parameter"
  const ServerError := "Server error"

  const SortFields: seq<string> := ["date", "amount", "created_at"]
  const SortOrders: seq<string> := ["asc", "desc"]

  // ---------------------------------------------------------------------
  // The statements of GET `/` and what the engine does with them

  /** A statement the list sends: the data query with its ORDER BY column and
      direction, or the count query. */
  datatype Statement =
    | DataQuery(conditions: seq<Condition>, sortBy: string, descending: bool)
    | CountQuery(conditions: seq<Condition>)

  /** A statement sent to `pool.execute` with its parameter list. */
  datatype Execution = Execution(statement: Statement, params: seq<Sql.Value>)

  const DataBase: seq<Sql.Piece> := [
    Sql.Literal("SELECT t.id, t.amount, t.description, t.date, t.type, t.category_id, t.created_at, "
                + "t.updated_at, c.name as category_name FROM transactions t "
                + "LEFT JOIN categories c ON t.category_id = c.id WHERE t.user_id = "),
    Sql.Placeholder]

  const CountBase: seq<Sql.Piece> := [
    Sql.Literal("SELECT COUNT(*) as total FROM transactions WHERE user_id = "), Sql.Placeholder]

  /** The text the route builds: the base, the conditions joined by AND, then
      for the data query `ORDER BY t.<column> ASC|DESC LIMIT ? OFFSET ?`. */
  function StatementText(st: Statement): seq<Sql.Piece> {
    match st
    case DataQuery(cs, sortBy, descending) =>
      WithConditions(DataBase, cs)
      + [Sql.Literal(" ORDER BY t." + sortBy + " " + (if descending then "DESC" else "ASC")),
         Sql.Literal(" LIMIT "), Sql.Placeholder, Sql.Literal(" OFFSET "), Sql.Placeholder]
    case CountQuery(cs) => WithConditions(CountBase, cs)
  }

  /** The data query has a placeholder for the user id, those of its
      conditions, and two for LIMIT and OFFSET; the count query the first two. */
  lemma StatementPlaceholders(st: Statement)
    ensures Sql.Placeholders(StatementText(st)) == (if st.DataQuery? then 3 else 1) + TotalArity(st.conditions)
  {
    match st
    case DataQuery(cs, sortBy, descending) =>
      WithConditionsPlaceholders(DataBase, cs);
      var tail := [Sql.Literal(" ORDER BY t." + sortBy + " " + (if descending then "DESC" else "ASC")),
                   Sql.Literal(" LIMIT "), Sql.Placeholder, Sql.Literal(" OFFSET "), Sql.Placeholder];
      Sql.PlaceholdersAppend(WithConditions(DataBase, cs), tail);
      assert Sql.Placeholders(DataBase) == 1;
      assert tail[4..][1..] == [] && tail[3..][1..] == tail[4..] && tail[2..][1..] == tail[3..];
      assert tail[1..][1..] == tail[2..];
      assert Sql.Placeholders(tail[2..]) == 2;
    case CountQuery(cs) =>
      WithConditionsPlaceholders(CountBase, cs);
      assert Sql.Placeholders(CountBase) == 1;
  }

  /** The joined rows for some transactions, in their order. */
  function Joins(db: Store.Database, rows: seq<Store.TransactionRow>): (r: seq<Store.JoinedRow>)
    reads db
    ensures |r| == |rows|
    ensures forall i :: 0 <= i < |rows| ==> r[i] == db.Joined(rows[i])
  {
    if rows == [] then [] else [db.Joined(rows[0])] + Joins(db, rows[1..])
  }

  /** Every transaction with its category's name, in primary-key order: what
      both statements read before filtering. The count query reads no
      category, and none of its conditions looks at one. */
  function Candidates(db: Store.Database): seq<Store.JoinedRow>
    reads db
  {
    Joins(db, Store.Scan(db.transactions, db.nextTransactionId))
  }

  /** The candidates are exactly the stored transactions, each joined. */
  lemma CandidatesStored(db: Store.Database)
    requires db.Valid()
    ensures forall r :: r in Candidates(db) ==>
              r.row.id in db.transactions && db.transactions[r.row.id] == r.row && r == db.Joined(r.row)
    ensures forall id :: id in db.transactions ==> db.Joined(db.transactions[id]) in Candidates(db)
  {
    var scanned := Store.Scan(db.transactions, db.nextTransactionId);
    Store.ScanMembers(db.transactions, db.nextTransactionId);
    var c := Candidates(db);
    forall r | r in c
      ensures r.row.id in db.transactions && db.transactions[r.row.id] == r.row && r == db.Joined(r.row)
    {
      var k :| 0 <= k < |c| && c[k] == r;
      assert scanned[k] in scanned;
    }
    forall id | id in db.transactions
      ensures db.Joined(db.transactions[id]) in c
    {
      var k :| 0 <= k < |scanned| && scanned[k] == db.transactions[id];
      assert c[k] == db.Joined(db.transactions[id]);
    }
  }

  /** `WHERE user_id = ? AND <conditions>` with `user` and `args` bound. */
  function Where(cs: seq<Condition>, user: Sql.Value, args: seq<Sql.Value>): Store.JoinedRow -> bool {
    (r: Store.JoinedRow) => Sql.Int(r.row.userId) == user && |args| == TotalArity(cs) && Matches(cs, args, r)
  }

  /** `ORDER BY t.<column>`, ascending or descending: `OrderedBy(.., a, b)`
      says `a` may stay ahead of `b`. An unknown column is ordered as `date`;
      the route never sends one. */
  predicate OrderedBy(sortBy: string, descending: bool, a: Store.JoinedRow, b: Store.JoinedRow) {
    var (x, y) := if descending then (b.row, a.row) else (a.row, b.row);
    if sortBy == "amount" then x.amount <= y.amount
    else if sortBy == "created_at" then x.createdAt <= y.createdAt
    else JsText.Compare(x.date, y.date) <= 0
  }

  function OrderLe(sortBy: string, descending: bool): (Store.JoinedRow, Store.JoinedRow) -> bool {
    (a: Store.JoinedRow, b: Store.JoinedRow) => OrderedBy(sortBy, descending, a, b)
  }

  /** Every column orders all rows consistently. */
  lemma OrderConsistent(sortBy: string, descending: bool)
    ensures Sorting.TotalPreorder(OrderLe(sortBy, descending))
  {
    var le := OrderLe(sortBy, descending);
    forall a: Store.JoinedRow, b: Store.JoinedRow
      ensures le(a, b) || le(b, a)
    {
      JsText.CompareFlip(a.row.date, b.row.date);
    }
    forall a: Store.JoinedRow, b: Store.JoinedRow, c: Store.JoinedRow | le(a, b) && le(b, c)
      ensures le(a, c)
    {
      if descending {
        if JsText.Compare(c.row.date, b.row.date) <= 0 && JsText.Compare(b.row.date, a.row.date) <= 0 {
          JsText.CompareTransitive(c.row.date, b.row.date, a.row.date);
        }
      } else {
        if JsText.Compare(a.row.date, b.row.date) <= 0 && JsText.Compare(b.row.date, c.row.date) <= 0 {
          JsText.CompareTransitive(a.row.date, b.row.date, c.row.date);
        }
      }
    }
  }

  /** `LIMIT limit OFFSET offset`: the rows from position `offset` on, at most
      `limit` of them. */
  function Window<T>(rows: seq<T>, offset: nat, limit: nat): (r: seq<T>)
    ensures |r| == ListOps.Min(limit, if offset <= |rows| then |rows| - offset else 0)
    ensures forall i :: 0 <= i < |r| ==> r[i] == rows[offset + i]
  {
    rows[ListOps.Min(offset, |rows|)..ListOps.Min(offset + limit, |rows|)]
  }

  /** Two consecutive windows are the window spanning both. */
  lemma WindowsTile<T>(rows: seq<T>, offset: nat, a: nat, b: nat)
    ensures Window(rows, offset, a) + Window(rows, offset + a, b) == Window(rows, offset, a + b)
  {
  }

  /** The data statement as MySQL runs it: an error (`None`) when the values
      do not fill its placeholders or LIMIT and OFFSET are not non-negative
      integers; otherwise the caller's matching rows, ordered (ties keep
      primary-key order), then windowed. */
  function RunData(db: Store.Database, st: Statement, params: seq<Sql.Value>): (r: Option<seq<Store.JoinedRow>>)
    requires st.DataQuery?
    reads db
    ensures Sql.Placeholders(StatementText(st)) != |params| ==> r.None?
    ensures r.Some? ==>
              && |params| >= 3
              && params[|params| - 2].Int? && params[|params| - 1].Int?
              && 0 <= params[|params| - 2].i && 0 <= params[|params| - 1].i
              && |r.value| <= params[|params| - 2].i
  {
    StatementPlaceholders(st);
    if Sql.Placeholders(StatementText(st)) != |params| then None
    else
      var limit, offset := params[|params| - 2], params[|params| - 1];
      if !(limit.Int? && offset.Int? && 0 <= limit.i && 0 <= offset.i) then None
      else
        var rows := ListOps.Filter(Candidates(db), Where(st.conditions, params[0], params[1..|params| - 2]));
        Some(Window(Sorting.SortBy(rows, OrderLe(st.sortBy, st.descending)), offset.i, limit.i))
  }

  /** The count statement as MySQL runs it: the number of matching rows. */
  function RunCount(db: Store.Database, st: Statement, params: seq<Sql.Value>): Option<nat>
    requires st.CountQuery?
    reads db
  {
    StatementPlaceholders(st);
    if Sql.Placeholders(StatementText(st)) != |params| then None
    else Some(|ListOps.Filter(Candidates(db), Where(st.conditions, params[0], params[1..]))|)
  }

  // ---------------------------------------------------------------------
  // What GET `/` is meant to return, said directly

  /** The rows the data query selects for the caller. */
  function ListedRows(db: Store.Database, userId: int, f: ListQuery): seq<Store.JoinedRow>
    reads db
  {
    ListOps.Filter(Candidates(db), (r: Store.JoinedRow) => r.row.userId == userId && DataFilter(f, r))
  }

  /** The rows the count query counts for the caller. */
  function CountedRows(db: Store.Database, userId: int, f: ListQuery): seq<Store.JoinedRow>
    reads db
  {
    ListOps.Filter(Candidates(db), (r: Store.JoinedRow) => r.row.userId == userId && CountFilter(f, r))
  }

  /** `sort_by = 'date'` and `sort_order = 'desc'` when missing. */
  function SortField(f: ListQuery): string {
    f.sortBy.GetOr("date")
  }

  function SortDirection(f: ListQuery): string {
    f.sortOrder.GetOr("desc")
  }

  /** `parseInt(page)` with `page = 1` when missing. */
  function PageNumber(f: ListQuery): Option<int> {
    if f.page.None? then Some(1) else JsNumber.ParseInt(f.page.value)
  }

  /** `parseInt(limit)` with `limit = 50` when missing. */
  function PageSize(f: ListQuery): Option<int> {
    if f.limit.None? then Some(50) else JsNumber.ParseInt(f.limit.value)
  }

  /** `(parseInt(page) - 1) * parseInt(limit)`, NaN when either is. */
  function Offset(f: ListQuery): (r: Option<int>)
    ensures r.Some? <==> PageNumber(f).Some? && PageSize(f).Some?
  {
    if PageNumber(f).Some? && PageSize(f).Some? then Some((PageNumber(f).value - 1) * PageSize(f).value) else None
  }

  /** A number as a parameter value: NaN stays NaN. */
  function AsValue(n: Option<int>): (v: Sql.Value)
    ensures v.Int? <==> n.Some?
    ensures n.Some? ==> v.i == n.value
  {
    if n.Some? then Sql.Int(n.value) else Sql.NaN
  }

  /** The values LIMIT and OFFSET accept: non-negative integers. */
  predicate WindowValid(f: ListQuery) {
    PageSize(f).Some? && Offset(f).Some? && 0 <= PageSize(f).value && 0 <= Offset(f).value
  }

  /** `Math.ceil(total / limit)`, `None` for a zero limit. */
  function Pages(total: nat, limit: nat): (r: Option<nat>)
    ensures r.None? <==> limit == 0
    ensures r.Some? ==> total <= r.value * limit && (r.value == 0 || (r.value - 1) * limit < total)
  {
    if limit == 0 then None
    else
      var p := (total + limit - 1) / limit;
      assert p * limit <= total + limit - 1 < (p + 1) * limit;
      Some(p)
  }

  /** The pages of the envelope together show every row: the window of
      `pages * limit` rows from the start is all of them, and the last page
      is not empty. */
  lemma PagesCover<T>(rows: seq<T>, limit: nat)
    requires limit > 0
    ensures var pages := Pages(|rows|, limit).value;
            && Window(rows, 0, pages * limit) == rows
            && (pages > 0 ==> Window(rows, (pages - 1) * limit, limit) != [])
  {
  }

  /** The reply GET `/` is meant to give: a 400 for an unknown column or
      direction, a 500 when LIMIT or OFFSET is not a non-negative integer,
      otherwise the window of the sorted matching rows and the envelope. */
  function Expected(db: Store.Database, userId: int, f: ListQuery): (r: Reply)
    reads db
    ensures r.status == 400 <==> SortField(f) !in SortFields || SortDirection(f) !in SortOrders
    ensures r.status == 500 <==> SortField(f) in SortFields && SortDirection(f) in SortOrders && !WindowValid(f)
    ensures r.status != 200 <==> r.payload.Message?
    ensures r.status == 200 ==>
              && r.payload.Listing?
              && |r.payload.transactions| <= PageSize(f).value
              && r.payload.pagination.total == |CountedRows(db, userId, f)|
              && r.payload.pagination.page == PageNumber(f).value
  {
    if SortField(f) !in SortFields then Reply(400, Message(SortByInvalid))
    else if SortDirection(f) !in SortOrders then Reply(400, Message(SortOrderInvalid))
    else if !WindowValid(f) then Reply(500, Message(ServerError))
    else
      var limit: nat, offset: nat := PageSize(f).value, Offset(f).value;
      var sorted := Sorting.SortBy(ListedRows(db, userId, f), OrderLe(SortField(f), SortDirection(f) == "desc"));
      var total := |CountedRows(db, userId, f)|;
      Reply(200, Listing(Window(sorted, offset, limit),
                         Pagination(PageNumber(f).value, limit, total, Pages(total, limit))))
  }

  /** The data statement's bound conditions select exactly `ListedRows`. */
  lemma DataSelects(db: Store.Database, userId: int, f: ListQuery)
    ensures ListOps.Filter(Candidates(db), Where(DataConditions(f), Sql.Int(userId), DataArgs(f))) == ListedRows(db, userId, f)
  {
    forall r | r in Candidates(db)
      ensures Where(DataConditions(f), Sql.Int(userId), DataArgs(f))(r) == (r.row.userId == userId && DataFilter(f, r))
    {
      DataMeaning(f, r);
    }
    ListOps.FilterCongruent(Candidates(db), Where(DataConditions(f), Sql.Int(userId), DataArgs(f)),
                            (r: Store.JoinedRow) => r.row.userId == userId && DataFilter(f, r));
  }

  /** The count statement's bound conditions select exactly `CountedRows`. */
  lemma CountSelects(db: Store.Database, userId: int, f: ListQuery)
    ensures ListOps.Filter(Candidates(db), Where(CountConditions(f), Sql.Int(userId), CountArgs(f))) == CountedRows(db, userId, f)
  {
    forall r | r in Candidates(db)
      ensures Where(CountConditions(f), Sql.Int(userId), CountArgs(f))(r) == (r.row.userId == userId && CountFilter(f, r))
    {
      CountMeaning(f, r);
    }
    ListOps.FilterCongruent(Candidates(db), Where(CountConditions(f), Sql.Int(userId), CountArgs(f)),
                            (r: Store.JoinedRow) => r.row.userId == userId && CountFilter(f, r));
  }

  /** The data statement the route sends, run by the engine. */
  lemma DataRun(db: Store.Database, userId: int, f: ListQuery, sortBy: string, descending: bool,
                limit: Sql.Value, offset: Sql.Value)
    ensures var st := DataQuery(DataConditions(f), sortBy, descending);
            var params := [Sql.Int(userId)] + DataArgs(f) + [limit, offset];
            && Sql.Placeholders(StatementText(st)) == |params|
            && RunData(db, st, params)
               == if limit.Int? && offset.Int? && 0 <= limit.i && 0 <= offset.i
                  then Some(Window(Sorting.SortBy(ListedRows(db, userId, f), OrderLe(sortBy, descending)), offset.i, limit.i))
                  else None
  {
    var st := DataQuery(DataConditions(f), sortBy, descending);
    var params := [Sql.Int(userId)] + DataArgs(f) + [limit, offset];
    StatementPlaceholders(st);
    ArgsArity(f, false, FilterCount);
    assert params[0] == Sql.Int(userId);
    assert params[1..|params| - 2] == DataArgs(f);
    DataSelects(db, userId, f);
  }

  /** The count statement the route sends, run by the engine. */
  lemma CountRun(db: Store.Database, userId: int, f: ListQuery)
    ensures var st := CountQuery(CountConditions(f));
            var params := [Sql.Int(userId)] + CountArgs(f);
            && Sql.Placeholders(StatementText(st)) == |params|
            && RunCount(db, st, params) == Some(|CountedRows(db, userId, f)|)
  {
    var st := CountQuery(CountConditions(f));
    var params := [Sql.Int(userId)] + CountArgs(f);
    StatementPlaceholders(st);
    ArgsArity(f, true, FilterCount);
    assert params[1..] == CountArgs(f);
    CountSelects(db, userId, f);
  }

  /** GET `/`: build both filters, check the sort, then run the data query
      and the count query. `sent` is what went to `pool.execute`, in order. */
  method List(db: Store.Database, userId: int, f: ListQuery) returns (reply: Reply, sent: seq<Execution>)
    ensures reply == Expected(db, userId, f)
    ensures SortField(f) !in SortFields || SortDirection(f) !in SortOrders ==> sent == []
    ensures SortField(f) in SortFields && SortDirection(f) in SortOrders ==>
              && 1 <= |sent|
              && sent[0] == Execution(DataQuery(DataConditions(f), SortField(f), SortDirection(f) == "desc"),
                                      [Sql.Int(userId)] + DataArgs(f) + [AsValue(PageSize(f)), AsValue(Offset(f))])
              && (|sent| == 2 <==> WindowValid(f))
    ensures forall e :: e in sent ==>
              Sql.Placeholders(StatementText(e.statement)) == |e.params| && 1 <= |e.params| && e.params[0] == Sql.Int(userId)
  {
    sent := [];
    var conditions, params := BuildDataFilter(userId, f);
    var sortBy := f.sortBy.GetOr("date");
    var sortOrder := f.sortOrder.GetOr("desc");
    if sortBy !in SortFields {
      return Reply(400, Message(SortByInvalid)), sent;
    }
    if sortOrder !in SortOrders {
      return Reply(400, Message(SortOrderInvalid)), sent;
    }
    var statement := DataQuery(conditions, sortBy, sortOrder == "desc");
    var offset := Offset(f);
    params := params + [AsValue(PageSize(f)), AsValue(offset)];
    sent := sent + [Execution(statement, params)];
    DataRun(db, userId, f, sortBy, sortOrder == "desc", AsValue(PageSize(f)), AsValue(offset));
    var rows := RunData(db, statement, params);
    if rows.None? {
      return Reply(500, Message(ServerError)), sent;
    }
    var countConditions, countParams := BuildCountFilter(userId, f);
    var countStatement := CountQuery(countConditions);
    sent := sent + [Execution(countStatement, countParams)];
    CountRun(db, userId, f);
    var total := RunCount(db, countStatement, countParams);
    var limit := PageSize(f).value;
    reply := Reply(200, Listing(rows.value, Pagination(PageNumber(f).value, limit, total.value, Pages(total.value, limit))));
  }

  /** Every listed row is a stored transaction of the caller, joined with its
      category's name, that the filters select. */
  lemma ListingScoped(db: Store.Database, userId: int, f: ListQuery)
    requires db.Valid()
    ensures var reply := Expected(db, userId, f);
            reply.status == 200 ==>
              forall r :: r in reply.payload.transactions ==>
                && r.row.userId == userId && DataFilter(f, r)
                && r.row.id in db.transactions && db.transactions[r.row.id] == r.row
                && r.categoryName == db.CategoryName(r.row.categoryId)
  {
    var reply := Expected(db, userId, f);
    if reply.status == 200 {
      var listed := ListedRows(db, userId, f);
      var sorted := Sorting.SortBy(listed, OrderLe(SortField(f), SortDirection(f) == "desc"));
      Sorting.SortByPermutes(listed, OrderLe(SortField(f), SortDirection(f) == "desc"));
      ListOps.FilterMembers(Candidates(db), (r: Store.JoinedRow) => r.row.userId == userId && DataFilter(f, r));
      CandidatesStored(db);
      var page := reply.payload.transactions;
      forall r | r in page
        ensures && r.row.userId == userId && DataFilter(f, r)
                && r.row.id in db.transactions && db.transactions[r.row.id] == r.row
                && r.categoryName == db.CategoryName(r.row.categoryId)
      {
        var k :| 0 <= k < |page| && page[k] == r;
        assert r in multiset(sorted);
        var j :| 0 <= j < |listed| && listed[j] == r;
      }
    }
  }

  /** Every stored transaction of the caller that the filters select is
      listed somewhere before sorting and windowing. */
  lemma ListedComplete(db: Store.Database, userId: int, f: ListQuery, id: int)
    requires db.Valid()
    requires id in db.transactions && db.transactions[id].userId == userId
    requires DataFilter(f, db.Joined(db.transactions[id]))
    ensures db.Joined(db.transactions[id]) in ListedRows(db, userId, f)
  {
    CandidatesStored(db);
    ListOps.FilterMembers(Candidates(db), (r: Store.JoinedRow) => r.row.userId == userId && DataFilter(f, r));
  }

  /** The listed rows are in the order ORDER BY asks for, at most `limit` of
      them. */
  lemma ListingSorted(db: Store.Database, userId: int, f: ListQuery)
    ensures var reply := Expected(db, userId, f);
            reply.status == 200 ==>
              && Sorting.Sorted(reply.payload.transactions, OrderLe(SortField(f), SortDirection(f) == "desc"))
              && |reply.payload.transactions| <= reply.payload.pagination.limit
  {
    var le := OrderLe(SortField(f), SortDirection(f) == "desc");
    OrderConsistent(SortField(f), SortDirection(f) == "desc");
    Sorting.SortBySorted(ListedRows(db, userId, f), le);
  }

  /** Without a search text the total counts exactly the rows listed across
      all pages, and those pages show every one of them. */
  lemma ListingTotalWithoutSearch(db: Store.Database, userId: int, f: ListQuery)
    requires !JsText.Truthy(f.q)
    ensures var reply := Expected(db, userId, f);
            reply.status == 200 ==>
              && reply.payload.pagination.total == |ListedRows(db, userId, f)|
              && (reply.payload.pagination.limit > 0 ==>
                    var sorted := Sorting.SortBy(ListedRows(db, userId, f), OrderLe(SortField(f), SortDirection(f) == "desc"));
                    Window(sorted, 0, reply.payload.pagination.pages.value * reply.payload.pagination.limit) == sorted)
  {
    forall r | r in Candidates(db)
      ensures (r.row.userId == userId && CountFilter(f, r)) == (r.row.userId == userId && DataFilter(f, r))
    {
      CountAgreesWithoutSearch(f, r);
    }
    ListOps.FilterCongruent(Candidates(db), (r: Store.JoinedRow) => r.row.userId == userId && CountFilter(f, r),
                            (r: Store.JoinedRow) => r.row.userId == userId && DataFilter(f, r));
    var reply := Expected(db, userId, f);
    if reply.status == 200 && reply.payload.pagination.limit > 0 {
      var sorted := Sorting.SortBy(ListedRows(db, userId, f), OrderLe(SortField(f), SortDirection(f) == "desc"));
      PagesCover(sorted, reply.payload.pagination.limit);
    }
  }

  /** `?page=0x2&limit=10` is the second page of ten: `parseInt` reads the
      page in base 16. */
  lemma HexPageWindow(f: ListQuery)
    requires f.page == Some("0x2") && f.limit == Some("10")
    ensures WindowValid(f) && PageNumber(f) == Some(2) && PageSize(f) == Some(10) && Offset(f) == Some(10)
  {
    JsNumber.ParseIntHexDigit();
    JsNumber.ParseIntTen();
  }

  /** `?limit=0x` binds NaN for LIMIT, which the engine refuses. */
  lemma HexLimitEmpty(f: ListQuery)
    requires f.limit == Some("0x")
    ensures !WindowValid(f)
  {
    JsNumber.ParseIntHexEmpty();
  }

  /** With the defaults, the first 50 rows are listed. */
  lemma DefaultWindow(f: ListQuery)
    requires f.page.None? && f.limit.None?
    ensures WindowValid(f) && PageNumber(f) == Some(1) && PageSize(f) == Some(50) && Offset(f) == Some(0)
  {
  }

  // ---------------------------------------------------------------------
  // POST `/`, PUT `/:id`, DELETE `/:id`

  /** The request body of create and update, each field possibly missing.
      `category_id` is a number; 0 is falsy. */
  datatype TransactionBody = TransactionBody(amount: JsNumber.JsValue, description: Option<string>,
                                             date: Option<string>, kind: Option<string>,
                                             categoryId: Option<int>)

  /** What the checks make of a body: the message of the first check that
      fails, or the values to store. A NaN amount (`None`) passes. */
  datatype Checked =
    | Rejected(message: string)
    | Accepted(amount: Option<real>, description: string, date: string, kind: string, categoryId: Option<int>)

  /** `parseFloat(amount) <= 0`, false for NaN. */
  predicate NotPositive(amount: JsNumber.JsValue) {
    var v := JsNumber.ParseFloatValue(amount);
    v.Some? && v.value <= 0.0
  }

  predicate FieldsPresent(body: TransactionBody) {
    JsNumber.Truthy(body.amount) && JsText.Truthy(body.date) && JsText.Truthy(body.kind)
  }

  /** The checks of create and update, in order: amount, date and type
      present; type of the enumeration; amount not at most 0. */
  function Check(body: TransactionBody): (r: Checked)
    ensures !FieldsPresent(body) ==> r == Rejected(FieldsRequired)
    ensures FieldsPresent(body) && !Store.IsKind(body.kind.value) ==> r == Rejected(TypeInvalid)
    ensures FieldsPresent(body) && Store.IsKind(body.kind.value) && NotPositive(body.amount) ==> r == Rejected(AmountInvalid)
    ensures r.Accepted? <==> FieldsPresent(body) && Store.IsKind(body.kind.value) && !NotPositive(body.amount)
    ensures r.Accepted? ==>
              && r.amount == JsNumber.ParseFloatValue(body.amount)
              && (r.amount.Some? ==> r.amount.value > 0.0)
              && r.description == body.description.GetOr("")
              && r.date == body.date.value && r.date != ""
              && r.kind == body.kind.value && Store.IsKind(r.kind)
              && r.categoryId == (if body.categoryId == Some(0) then None else body.categoryId)
  {
    if !(JsNumber.Truthy(body.amount) && JsText.Truthy(body.date) && JsText.Truthy(body.kind)) then Rejected(FieldsRequired)
    else if body.kind.value != "income" && body.kind.value != "expense" then Rejected(TypeInvalid)
    else
      var amount := JsNumber.ParseFloatValue(body.amount);
      if amount.Some? && amount.value <= 0.0 then Rejected(AmountInvalid)
      else
        Accepted(amount, if JsText.Truthy(body.description) then body.description.value else "", body.date.value,
                 body.kind.value, if body.categoryId.Some? && body.categoryId.value != 0 then body.categoryId else None)
  }

  /** A category id given but not found among the caller's categories. */
  predicate CategoryRefused(db: Store.Database, userId: int, categoryId: Option<int>)
    reads db
  {
    categoryId.Some? && !db.OwnsCategory(userId, categoryId.value)
  }

  /** POST `/`. A NaN amount gets past the checks and is refused by the
      engine. */
  method Create(db: Store.Database, userId: int, body: TransactionBody, now: int) returns (reply: Reply)
    requires db.Consistent()
    modifies db
    ensures db.Consistent()
    ensures Check(body).Rejected? ==> reply == Reply(400, Message(Check(body).message)) && unchanged(db)
    ensures Check(body).Accepted? && old(CategoryRefused(db, userId, Check(body).categoryId)) ==>
              reply == Reply(400, Message(CategoryInvalid)) && unchanged(db)
    ensures Check(body).Accepted? && !old(CategoryRefused(db, userId, Check(body).categoryId)) && Check(body).amount.None? ==>
              reply == Reply(500, Message(ServerError)) && unchanged(db)
    ensures Check(body).Accepted? && !old(CategoryRefused(db, userId, Check(body).categoryId)) && Check(body).amount.Some? ==>
              var c := Check(body);
              var row := Store.TransactionRow(old(db.nextTransactionId), userId, c.amount.value, c.description,
                                              c.date, c.kind, c.categoryId, now);
              && reply == Reply(201, One(db.Joined(row)))
              && db.transactions == old(db.transactions)[row.id := row]
              && db.categories == old(db.categories)
  {
    var checked := Check(body);
    if checked.Rejected? {
      return Reply(400, Message(checked.message));
    }
    if checked.categoryId.Some? && !db.OwnsCategory(userId, checked.categoryId.value) {
      return Reply(400, Message(CategoryInvalid));
    }
    var id := db.InsertTransaction(checked.amount, checked.description, checked.date, checked.kind,
                                   checked.categoryId, userId, now);
    if id.None? {
      return Reply(500, Message(ServerError));
    }
    reply := Reply(201, One(db.Joined(db.transactions[id.value])));
  }

  /** PUT `/:id`: the checks, then the caller's ownership of the
      transaction, then of the category. */
  method Update(db: Store.Database, userId: int, id: int, body: TransactionBody) returns (reply: Reply)
    requires db.Consistent()
    modifies db
    ensures db.Consistent()
    ensures Check(body).Rejected? ==> reply == Reply(400, Message(Check(body).message)) && unchanged(db)
    ensures Check(body).Accepted? && !old(db.OwnsTransaction(userId, id)) ==>
              reply == Reply(404, Message(NotFound)) && unchanged(db)
    ensures Check(body).Accepted? && old(db.OwnsTransaction(userId, id))
            && old(CategoryRefused(db, userId, Check(body).categoryId)) ==>
              reply == Reply(400, Message(CategoryInvalid)) && unchanged(db)
    ensures Check(body).Accepted? && old(db.OwnsTransaction(userId, id))
            && !old(CategoryRefused(db, userId, Check(body).categoryId)) && Check(body).amount.None? ==>
              reply == Reply(500, Message(ServerError)) && unchanged(db)
    ensures Check(body).Accepted? && old(db.OwnsTransaction(userId, id))
            && !old(CategoryRefused(db, userId, Check(body).categoryId)) && Check(body).amount.Some? ==>
              var c := Check(body);
              var row := old(db.transactions)[id].(amount := c.amount.value, description := c.description,
                                                   date := c.date, kind := c.kind, categoryId := c.categoryId);
              && reply == Reply(200, One(db.Joined(row)))
              && db.transactions == old(db.transactions)[id := row]
              && db.categories == old(db.categories)
  {
    var checked := Check(body);
    if checked.Rejected? {
      return Reply(400, Message(checked.message));
    }
    if !db.OwnsTransaction(userId, id) {
      return Reply(404, Message(NotFound));
    }
    if checked.categoryId.Some? && !db.OwnsCategory(userId, checked.categoryId.value) {
      return Reply(400, Message(CategoryInvalid));
    }
    var ok := db.UpdateTransaction(id, userId, checked.amount, checked.description, checked.date,
                                   checked.kind, checked.categoryId);
    if !ok {
      return Reply(500, Message(ServerError));
    }
    reply := Reply(200, One(db.Joined(db.transactions[id])));
  }

  /** DELETE `/:id`: only the caller's own transaction goes. */
  method Delete(db: Store.Database, userId: int, id: int) returns (reply: Reply)
    requires db.Consistent()
    modifies db
    ensures db.Consistent()
    ensures !old(db.OwnsTransaction(userId, id)) ==> reply == Reply(404, Message(NotFound)) && unchanged(db)
    ensures old(db.OwnsTransaction(userId, id)) ==>
              && reply == Reply(200, Message(Deleted))
              && db.transactions == old(db.transactions) - {id}
              && db.categories == old(db.categories)
  {
    if !db.OwnsTransaction(userId, id) {
      return Reply(404, Message(NotFound));
    }
    db.DeleteTransaction(id, userId);
    reply := Reply(200, Message(Deleted));
  }
}
