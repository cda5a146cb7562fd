/**
 * The server-backed dashboard (expense-tracker/frontend/src/pages/Dashboard.jsx):
 * the statistics `loadDashboardData` computes from the rows the list endpoint
 * returns, and the recent-activity list. An amount that is not numeric text
 * makes `parseFloat` yield NaN, which every later addition propagates; NaN is
 * `None` here.
 */
module ApiDashboard {
  import opened Wrappers
  import JsNumber
  import ListOps
  import TransactionsQuery

  /** A transaction row as the page reads it (`kind` is the row's `type`). */
  datatype ApiTransaction = ApiTransaction(id: int, kind: string, amount: JsNumber.JsValue, description: string)

  /** The body of the list response; `transactions` may be missing. */
  datatype ListResponse = ListResponse(transactions: Option<seq<ApiTransaction>>)

  /** `transactionsData.transactions || []`. */
  function Rows(response: ListResponse): (rows: seq<ApiTransaction>)
    ensures response.transactions.None? ==> rows == []
    ensures response.transactions.Some? ==> rows == response.transactions.value
  {
    response.transactions.GetOr([])
  }

  /** `parseFloat(t.amount || 0)`: a falsy amount reads as 0, NaN is `None`. */
  function AmountOf(t: ApiTransaction): Option<real> {
    if JsNumber.Truthy(t.amount) then JsNumber.ParseFloatValue(t.amount) else Some(0.0)
  }

  /** JavaScript addition on numbers that may be NaN. */
  function Add(x: Option<real>, y: Option<real>): Option<real> {
    if x.Some? && y.Some? then Some(x.value + y.value) else None
  }

  function Subtract(x: Option<real>, y: Option<real>): Option<real> {
    if x.Some? && y.Some? then Some(x.value - y.value) else None
  }

  /** `rows.reduce((sum, t) => sum + parseFloat(t.amount || 0), 0)`. */
  function Sum(rows: seq<ApiTransaction>): Option<real> {
    if rows == [] then Some(0.0) else Add(Sum(rows[..|rows| - 1]), AmountOf(rows[|rows| - 1]))
  }

  function IsOfKind(kind: string): ApiTransaction -> bool {
    (t: ApiTransaction) => t.kind == kind
  }

  /** `transactions.filter(t => t.type === kind).reduce(...)`. */
  function Total(rows: seq<ApiTransaction>, kind: string): Option<real> {
    Sum(ListOps.Filter(rows, IsOfKind(kind)))
  }

  /** The reference reading of a total: the sum of the amounts of the rows of
      that type, NaN as soon as one of them is. */
  function AmountIfKind(rows: seq<ApiTransaction>, kind: string): Option<real> {
    if rows == [] then Some(0.0)
    else Add(if rows[0].kind == kind then AmountOf(rows[0]) else Some(0.0), AmountIfKind(rows[1..], kind))
  }

  lemma AddAssociative(x: Option<real>, y: Option<real>, z: Option<real>)
    ensures Add(Add(x, y), z) == Add(x, Add(y, z))
  {
  }

  lemma {:induction false} SumAppend(a: seq<ApiTransaction>, b: seq<ApiTransaction>)
    ensures Sum(a + b) == Add(Sum(a), Sum(b))
    decreases |b|
  {
    if b == [] {
      assert a + b == a;
    } else {
      assert (a + b)[..|a + b| - 1] == a + b[..|b| - 1];
      SumAppend(a, b[..|b| - 1]);
      AddAssociative(Sum(a), Sum(b[..|b| - 1]), AmountOf(b[|b| - 1]));
    }
  }

  /** Filtering by type and summing is the sum of that type's amounts. */
  lemma {:induction false} TotalIsSumOfKind(rows: seq<ApiTransaction>, kind: string)
    ensures Total(rows, kind) == AmountIfKind(rows, kind)
  {
    if rows != [] {
      TotalIsSumOfKind(rows[1..], kind);
      var head := if rows[0].kind == kind then [rows[0]] else [];
      assert ListOps.Filter(rows, IsOfKind(kind)) == head + ListOps.Filter(rows[1..], IsOfKind(kind));
      SumAppend(head, ListOps.Filter(rows[1..], IsOfKind(kind)));
      assert Sum(head) == if rows[0].kind == kind then AmountOf(rows[0]) else Some(0.0) by {
        if rows[0].kind == kind { assert head[..0] == []; }
      }
    }
  }

  /** A total is NaN exactly when one row of its type has a non-numeric amount. */
  lemma {:induction false} TotalNaN(rows: seq<ApiTransaction>, kind: string)
    ensures Total(rows, kind).None? <==>
              exists i :: 0 <= i < |rows| && rows[i].kind == kind && AmountOf(rows[i]).None?
  {
    TotalIsSumOfKind(rows, kind);
    AmountIfKindNaN(rows, kind);
  }

  lemma {:induction false} AmountIfKindNaN(rows: seq<ApiTransaction>, kind: string)
    ensures AmountIfKind(rows, kind).None? <==>
              exists i :: 0 <= i < |rows| && rows[i].kind == kind && AmountOf(rows[i]).None?
  {
    if rows != [] {
      AmountIfKindNaN(rows[1..], kind);
      if exists i :: 0 <= i < |rows[1..]| && rows[1..][i].kind == kind && AmountOf(rows[1..][i]).None? {
        var i :| 0 <= i < |rows[1..]| && rows[1..][i].kind == kind && AmountOf(rows[1..][i]).None?;
        assert rows[i + 1] == rows[1..][i];
      }
      if exists i :: 0 <= i < |rows| && rows[i].kind == kind && AmountOf(rows[i]).None? {
        var i :| 0 <= i < |rows| && rows[i].kind == kind && AmountOf(rows[i]).None?;
        if i > 0 {
          assert rows[1..][i - 1] == rows[i];
        }
      }
    }
  }

  /** One more row changes only the total of its own type. */
  lemma TotalAfterAppend(rows: seq<ApiTransaction>, t: ApiTransaction, kind: string)
    ensures Total(rows + [t], kind) == Add(Total(rows, kind), if t.kind == kind then AmountOf(t) else Some(0.0))
  {
    ListOps.FilterAppend(rows, [t], IsOfKind(kind));
    SumAppend(ListOps.Filter(rows, IsOfKind(kind)), ListOps.Filter([t], IsOfKind(kind)));
    if t.kind == kind {
      assert [t][..0] == [];
    }
  }

  /** The `stats` state. */
  datatype Stats = Stats(income: Option<real>, expense: Option<real>, balance: Option<real>, transactionCount: nat)

  /** `loadDashboardData`'s statistics over the response. */
  function ComputeStats(response: ListResponse): (s: Stats)
    ensures s.income == AmountIfKind(Rows(response), "income")
    ensures s.expense == AmountIfKind(Rows(response), "expense")
    ensures s.balance == Subtract(s.income, s.expense)
    ensures s.transactionCount == |Rows(response)|
  {
    var rows := Rows(response);
    TotalIsSumOfKind(rows, "income");
    TotalIsSumOfKind(rows, "expense");
    var income := Total(rows, "income");
    var expense := Total(rows, "expense");
    Stats(income, expense, Subtract(income, expense), |rows|)
  }

  /** A response without a `transactions` field shows all-zero statistics. */
  lemma MissingRowsAreEmpty(response: ListResponse)
    requires response.transactions.None?
    ensures ComputeStats(response) == Stats(Some(0.0), Some(0.0), Some(0.0), 0)
  {
  }

  /** `transactions.slice(0, 5)`: the recent-activity list. */
  function Recent(rows: seq<ApiTransaction>): (r: seq<ApiTransaction>)
    ensures |r| == ListOps.Min(5, |rows|)
    ensures forall i :: 0 <= i < |r| ==> r[i] == rows[i]
  {
    rows[..ListOps.Min(5, |rows|)]
  }

  /** The request the page sends: `{ limit: 10, sort_by: 'created_at', sort_order: 'desc' }`. */
  const DashboardParams: TransactionsQuery.ListParams :=
    TransactionsQuery.ListParams(
      TransactionsQuery.Absent, TransactionsQuery.Absent, TransactionsQuery.Absent,
      TransactionsQuery.Absent, TransactionsQuery.Absent,
      TransactionsQuery.Str("created_at"), TransactionsQuery.Str("desc"),
      TransactionsQuery.Absent, TransactionsQuery.Int(10))

  /** The dashboard asks for at most ten rows, newest created first. */
  lemma DashboardRequest()
    ensures TransactionsQuery.Pairs(DashboardParams)
            == [("sort_by", "created_at"), ("sort_order", "desc"), ("limit", "10")]
  {
    var p := DashboardParams;
    assert JsNumber.IntToString(10) == "10";
    assert TransactionsQuery.AppendedUpTo(p, 5) == [];
    assert TransactionsQuery.AppendedUpTo(p, 6) == [("sort_by", "created_at")];
    assert TransactionsQuery.AppendedUpTo(p, 7) == [("sort_by", "created_at"), ("sort_order", "desc")];
    assert TransactionsQuery.AppendedUpTo(p, 8) == [("sort_by", "created_at"), ("sort_order", "desc")];
  }
}
