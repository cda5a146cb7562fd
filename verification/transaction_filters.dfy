/**
 * The WHERE clauses of the transaction list (expense-tracker/backend/src/
 * routes/transactions.js, GET `/`): the data query and the count query each
 * grow a list of conditions and a parallel list of parameter values from the
 * optional filters. A condition is kept as what it says; its SQL text is
 * `Text`, and `Holds` is what the engine makes of it once its placeholders
 * are bound.
 */
module TransactionFilters {
  import opened Wrappers
  import JsText
  import JsNumber
  import Sql
  import Store

  /** The query string of GET `/`, each parameter possibly missing. */
  datatype ListQuery = ListQuery(q: Option<string>, kind: Option<string>, categoryId: Option<string>,
                                 startDate: Option<string>, endDate: Option<string>,
                                 sortBy: Option<string>, sortOrder: Option<string>,
                                 page: Option<string>, limit: Option<string>)

  /** `type && (type === 'income' || type === 'expense')`. */
  predicate FiltersKind(kind: Option<string>) {
    kind.Some? && Store.IsKind(kind.value)
  }

  /** A condition either list may hold. `qualified` says whether the column is
      written `t.<column>`, as in the data query, which joins two tables. */
  datatype Condition =
    | SearchBoth
    | SearchDescription
    | KindIs(qualified: bool)
    | CategoryIs(qualified: bool)
    | DateFrom(qualified: bool)
    | DateTo(qualified: bool)

  function Column(qualified: bool, name: string): string {
    (if qualified then "t." else "") + name
  }

  /** The number of placeholders a condition has. */
  function Arity(c: Condition): nat {
    if c.SearchBoth? then 2 else 1
  }

  /** The SQL text the route pushes for a condition. */
  function Text(c: Condition): (text: seq<Sql.Piece>)
    ensures Sql.Placeholders(text) == Arity(c)
  {
    match c
    case SearchBoth =>
      [Sql.Literal("(t.description LIKE "), Sql.Placeholder, Sql.Literal(" OR c.name LIKE "), Sql.Placeholder, Sql.Literal(")")]
    case SearchDescription => [Sql.Literal("(description LIKE "), Sql.Placeholder, Sql.Literal(")")]
    case KindIs(qualified) => [Sql.Literal(Column(qualified, "type") + " = "), Sql.Placeholder]
    case CategoryIs(qualified) => [Sql.Literal(Column(qualified, "category_id") + " = "), Sql.Placeholder]
    case DateFrom(qualified) => [Sql.Literal(Column(qualified, "date") + " >= "), Sql.Placeholder]
    case DateTo(qualified) => [Sql.Literal(Column(qualified, "date") + " <= "), Sql.Placeholder]
  }

  function Texts(cs: seq<Condition>): (texts: seq<seq<Sql.Piece>>)
    ensures |texts| == |cs|
  {
    if cs == [] then [] else [Text(cs[0])] + Texts(cs[1..])
  }

  function TotalArity(cs: seq<Condition>): nat {
    if cs == [] then 0 else Arity(cs[0]) + TotalArity(cs[1..])
  }

  lemma {:induction false} TotalArityAppend(a: seq<Condition>, b: seq<Condition>)
    ensures TotalArity(a + b) == TotalArity(a) + TotalArity(b)
  {
    if a == [] {
      assert a + b == b;
    } else {
      assert (a + b)[1..] == a[1..] + b;
      TotalArityAppend(a[1..], b);
    }
  }

  lemma {:induction false} TextsPlaceholders(cs: seq<Condition>)
    ensures Sql.TotalPlaceholders(Texts(cs)) == TotalArity(cs)
  {
    if cs != [] {
      TextsPlaceholders(cs[1..]);
    }
  }

  /** `base + ' AND ' + conditions.join(' AND ')`, or `base` alone when there
      is no condition. */
  function WithConditions(base: seq<Sql.Piece>, cs: seq<Condition>): seq<Sql.Piece> {
    base + (if cs == [] then [] else [Sql.Literal(" AND ")] + Sql.JoinAnd(Texts(cs)))
  }

  /** The conditions add their own placeholders to the base text's, no more. */
  lemma WithConditionsPlaceholders(base: seq<Sql.Piece>, cs: seq<Condition>)
    ensures Sql.Placeholders(WithConditions(base, cs)) == Sql.Placeholders(base) + TotalArity(cs)
  {
    TextsPlaceholders(cs);
    Sql.JoinAndPlaceholders(Texts(cs));
    if cs != [] {
      Sql.PlaceholdersAppend([Sql.Literal(" AND ")], Sql.JoinAnd(Texts(cs)));
    }
    Sql.PlaceholdersAppend(base, if cs == [] then [] else [Sql.Literal(" AND ")] + Sql.JoinAnd(Texts(cs)));
  }

  /** MySQL's reading of the text bound against an integer column: its leading
      integer, or 0 when it has none. */
  function NumericText(s: string): int {
    JsNumber.ParseDecimal(s).GetOr(0)
  }

  /** What a condition asks of a joined row once `args` are bound to its
      placeholders. A NULL category name matches no pattern. */
  predicate Holds(c: Condition, args: seq<Sql.Value>, r: Store.JoinedRow)
    requires |args| == Arity(c)
  {
    match c
    case SearchBoth =>
      || (args[0].Text? && Sql.Like(r.row.description, args[0].s))
      || (args[1].Text? && r.categoryName.Some? && Sql.Like(r.categoryName.value, args[1].s))
    case SearchDescription => args[0].Text? && Sql.Like(r.row.description, args[0].s)
    case KindIs(_) => args[0].Text? && r.row.kind == args[0].s
    case CategoryIs(_) => args[0].Text? && r.row.categoryId == Some(NumericText(args[0].s))
    case DateFrom(_) => args[0].Text? && JsText.Compare(args[0].s, r.row.date) <= 0
    case DateTo(_) => args[0].Text? && JsText.Compare(r.row.date, args[0].s) <= 0
  }

  /** The conditions joined by AND, each taking its values from `args` in turn. */
  predicate Matches(cs: seq<Condition>, args: seq<Sql.Value>, r: Store.JoinedRow)
    requires |args| == TotalArity(cs)
    decreases |cs|
  {
    cs == [] || (Holds(cs[0], args[..Arity(cs[0])], r) && Matches(cs[1..], args[Arity(cs[0])..], r))
  }

  /** Conditions joined by AND can be split anywhere, with their values. */
  lemma {:induction false} MatchesAppend(a: seq<Condition>, b: seq<Condition>, x: seq<Sql.Value>, y: seq<Sql.Value>,
                                         r: Store.JoinedRow)
    requires |x| == TotalArity(a) && |y| == TotalArity(b)
    ensures |x + y| == TotalArity(a + b)
    ensures Matches(a + b, x + y, r) <==> Matches(a, x, r) && Matches(b, y, r)
  {
    TotalArityAppend(a, b);
    if a == [] {
      assert a + b == b && x + y == y;
    } else {
      var n := Arity(a[0]);
      assert (a + b)[0] == a[0] && (a + b)[1..] == a[1..] + b;
      assert (x + y)[..n] == x[..n];
      assert (x + y)[n..] == x[n..] + y;
      MatchesAppend(a[1..], b, x[n..], y, r);
    }
  }

  lemma MatchesOne(c: Condition, args: seq<Sql.Value>, r: Store.JoinedRow)
    requires |args| == Arity(c)
    ensures |args| == TotalArity([c])
    ensures Matches([c], args, r) <==> Holds(c, args, r)
  {
    assert [c][1..] == [];
    assert args[..Arity(c)] == args;
    assert args[Arity(c)..] == [];
  }

  /** The condition the `i`-th filter adds, if any, in the order the route
      checks them: the search, the type, the category, then the two dates.
      The count query (`forCount`) writes its columns unqualified and
      searches the description alone. */
  function Part(f: ListQuery, i: nat, forCount: bool): seq<Condition> {
    if i == 0 then (if JsText.Truthy(f.q) then [if forCount then SearchDescription else SearchBoth] else [])
    else if i == 1 then (if FiltersKind(f.kind) then [KindIs(!forCount)] else [])
    else if i == 2 then (if JsText.Truthy(f.categoryId) then [CategoryIs(!forCount)] else [])
    else if i == 3 then (if JsText.Truthy(f.startDate) then [DateFrom(!forCount)] else [])
    else if i == 4 then (if JsText.Truthy(f.endDate) then [DateTo(!forCount)] else [])
    else []
  }

  /** The values pushed with it: the search pattern, twice for the data
      query, or the filter's own text. */
  function PartArgs(f: ListQuery, i: nat, forCount: bool): seq<Sql.Value> {
    if i == 0 then
      (if !JsText.Truthy(f.q) then []
       else if forCount then [Sql.Text(Sql.ContainsPattern(f.q.value))]
       else [Sql.Text(Sql.ContainsPattern(f.q.value)), Sql.Text(Sql.ContainsPattern(f.q.value))])
    else if i == 1 then (if FiltersKind(f.kind) then [Sql.Text(f.kind.value)] else [])
    else if i == 2 then (if JsText.Truthy(f.categoryId) then [Sql.Text(f.categoryId.value)] else [])
    else if i == 3 then (if JsText.Truthy(f.startDate) then [Sql.Text(f.startDate.value)] else [])
    else if i == 4 then (if JsText.Truthy(f.endDate) then [Sql.Text(f.endDate.value)] else [])
    else []
  }

  /** What the `i`-th filter asks of a row, said directly. */
  predicate PartFilter(f: ListQuery, i: nat, forCount: bool, r: Store.JoinedRow) {
    if i == 0 then
      JsText.Truthy(f.q) ==> JsText.Contains(r.row.description, f.q.value)
                             || (!forCount && r.categoryName.Some? && JsText.Contains(r.categoryName.value, f.q.value))
    else if i == 1 then FiltersKind(f.kind) ==> r.row.kind == f.kind.value
    else if i == 2 then JsText.Truthy(f.categoryId) ==> r.row.categoryId == Some(NumericText(f.categoryId.value))
    else if i == 3 then JsText.Truthy(f.startDate) ==> JsText.Compare(f.startDate.value, r.row.date) <= 0
    else if i == 4 then JsText.Truthy(f.endDate) ==> JsText.Compare(r.row.date, f.endDate.value) <= 0
    else true
  }

  /** A filter adds at most one condition, with a value per placeholder, and
      that condition with those values asks what the filter means. */
  lemma PartMeaning(f: ListQuery, i: nat, forCount: bool, r: Store.JoinedRow)
    ensures |Part(f, i, forCount)| <= 1
    ensures |PartArgs(f, i, forCount)| == TotalArity(Part(f, i, forCount))
    ensures Matches(Part(f, i, forCount), PartArgs(f, i, forCount), r) <==> PartFilter(f, i, forCount, r)
  {
    var cs, args := Part(f, i, forCount), PartArgs(f, i, forCount);
    if cs != [] {
      assert cs == [cs[0]];
      MatchesOne(cs[0], args, r);
      if i == 0 {
        Sql.LikeContains(r.row.description, f.q.value);
        if r.categoryName.Some? {
          Sql.LikeContains(r.categoryName.value, f.q.value);
        }
      }
    }
  }

  /** The conditions of the first `n` filters, in order. */
  function Conditions(f: ListQuery, forCount: bool, n: nat): seq<Condition> {
    if n == 0 then [] else Conditions(f, forCount, n - 1) + Part(f, n - 1, forCount)
  }

  function Args(f: ListQuery, forCount: bool, n: nat): seq<Sql.Value> {
    if n == 0 then [] else Args(f, forCount, n - 1) + PartArgs(f, n - 1, forCount)
  }

  /** The first `n` filters' conditions come with a value per placeholder, and
      together ask what each of those filters means. */
  lemma {:induction false} ConditionsMeaning(f: ListQuery, forCount: bool, n: nat, r: Store.JoinedRow)
    ensures |Args(f, forCount, n)| == TotalArity(Conditions(f, forCount, n))
    ensures Matches(Conditions(f, forCount, n), Args(f, forCount, n), r)
            <==> forall i :: 0 <= i < n ==> PartFilter(f, i, forCount, r)
  {
    if n > 0 {
      ConditionsMeaning(f, forCount, n - 1, r);
      PartMeaning(f, n - 1, forCount, r);
      MatchesAppend(Conditions(f, forCount, n - 1), Part(f, n - 1, forCount),
                    Args(f, forCount, n - 1), PartArgs(f, n - 1, forCount), r);
      LastPart(f, forCount, n, r);
    }
  }

  /** The first `n` filters hold when the first `n - 1` and the last one do. */
  lemma LastPart(f: ListQuery, forCount: bool, n: nat, r: Store.JoinedRow)
    requires n > 0
    ensures (forall i :: 0 <= i < n ==> PartFilter(f, i, forCount, r))
            <==> (forall i :: 0 <= i < n - 1 ==> PartFilter(f, i, forCount, r)) && PartFilter(f, n - 1, forCount, r)
  {
  }

  /** A filter's block takes the conditions and the parameters of the filters
      before it to those of one filter more. */
  lemma PushPart(userId: int, f: ListQuery, forCount: bool, n: nat, cs: seq<Condition>, ps: seq<Sql.Value>,
                 cs': seq<Condition>, ps': seq<Sql.Value>)
    requires cs == Conditions(f, forCount, n) && ps == Params(userId, f, forCount, n)
    requires cs' == cs + Part(f, n, forCount) && ps' == ps + PartArgs(f, n, forCount)
    ensures cs' == Conditions(f, forCount, n + 1) && ps' == Params(userId, f, forCount, n + 1)
  {
  }

  /** The parameter list as the route grows it: the user id, then the values
      of the first `n` filters. */
  function Params(userId: int, f: ListQuery, forCount: bool, n: nat): seq<Sql.Value> {
    if n == 0 then [Sql.Int(userId)] else Params(userId, f, forCount, n - 1) + PartArgs(f, n - 1, forCount)
  }

  lemma {:induction false} ParamsArgs(userId: int, f: ListQuery, forCount: bool, n: nat)
    ensures Params(userId, f, forCount, n) == [Sql.Int(userId)] + Args(f, forCount, n)
  {
    if n > 0 {
      ParamsArgs(userId, f, forCount, n - 1);
    }
  }

  lemma PartArity(f: ListQuery, i: nat, forCount: bool)
    ensures |PartArgs(f, i, forCount)| == TotalArity(Part(f, i, forCount))
  {
    var cs := Part(f, i, forCount);
    if cs != [] {
      assert cs[1..] == [];
    }
  }

  /** Each value pushed fills one placeholder of the conditions pushed. */
  lemma {:induction false} ArgsArity(f: ListQuery, forCount: bool, n: nat)
    ensures |Args(f, forCount, n)| == TotalArity(Conditions(f, forCount, n))
  {
    if n > 0 {
      ArgsArity(f, forCount, n - 1);
      TotalArityAppend(Conditions(f, forCount, n - 1), Part(f, n - 1, forCount));
      PartArity(f, n - 1, forCount);
    }
  }

  const FilterCount := 5

  /** The data query's conditions (lines 46-72) and their values. */
  function DataConditions(f: ListQuery): seq<Condition> {
    Conditions(f, false, FilterCount)
  }

  function DataArgs(f: ListQuery): seq<Sql.Value> {
    Args(f, false, FilterCount)
  }

  /** The count query's conditions (lines 106-129) and their values. */
  function CountConditions(f: ListQuery): seq<Condition> {
    Conditions(f, true, FilterCount)
  }

  function CountArgs(f: ListQuery): seq<Sql.Value> {
    Args(f, true, FilterCount)
  }

  /** The rows the data query is meant to return, said directly: the text
      occurs in the description or the category name, the type, category and
      date range match. */
  predicate DataFilter(f: ListQuery, r: Store.JoinedRow) {
    && (JsText.Truthy(f.q) ==> JsText.Contains(r.row.description, f.q.value)
                               || (r.categoryName.Some? && JsText.Contains(r.categoryName.value, f.q.value)))
    && (FiltersKind(f.kind) ==> r.row.kind == f.kind.value)
    && (JsText.Truthy(f.categoryId) ==> r.row.categoryId == Some(NumericText(f.categoryId.value)))
    && (JsText.Truthy(f.startDate) ==> JsText.Compare(f.startDate.value, r.row.date) <= 0)
    && (JsText.Truthy(f.endDate) ==> JsText.Compare(r.row.date, f.endDate.value) <= 0)
  }

  /** The rows the count query counts: the same, except that the text must
      occur in the description. */
  predicate CountFilter(f: ListQuery, r: Store.JoinedRow) {
    && (JsText.Truthy(f.q) ==> JsText.Contains(r.row.description, f.q.value))
    && (FiltersKind(f.kind) ==> r.row.kind == f.kind.value)
    && (JsText.Truthy(f.categoryId) ==> r.row.categoryId == Some(NumericText(f.categoryId.value)))
    && (JsText.Truthy(f.startDate) ==> JsText.Compare(f.startDate.value, r.row.date) <= 0)
    && (JsText.Truthy(f.endDate) ==> JsText.Compare(r.row.date, f.endDate.value) <= 0)
  }

  lemma AllParts(f: ListQuery, forCount: bool, r: Store.JoinedRow)
    ensures (forall i :: 0 <= i < FilterCount ==> PartFilter(f, i, forCount, r))
            <==> PartFilter(f, 0, forCount, r) && PartFilter(f, 1, forCount, r) && PartFilter(f, 2, forCount, r)
                 && PartFilter(f, 3, forCount, r) && PartFilter(f, 4, forCount, r)
  {
  }

  /** The data query's conditions, with their values, select exactly the rows
      of `DataFilter`. */
  lemma DataMeaning(f: ListQuery, r: Store.JoinedRow)
    ensures |DataArgs(f)| == TotalArity(DataConditions(f))
    ensures Matches(DataConditions(f), DataArgs(f), r) <==> DataFilter(f, r)
  {
    ConditionsMeaning(f, false, FilterCount, r);
    AllParts(f, false, r);
  }

  /** The count query's conditions select exactly the rows of `CountFilter`. */
  lemma CountMeaning(f: ListQuery, r: Store.JoinedRow)
    ensures |CountArgs(f)| == TotalArity(CountConditions(f))
    ensures Matches(CountConditions(f), CountArgs(f), r) <==> CountFilter(f, r)
  {
    ConditionsMeaning(f, true, FilterCount, r);
    AllParts(f, true, r);
  }

  /** The count query filters on the data query's columns in the same order:
      condition for condition, it is the data query's with the search of the
      category name dropped and the columns unqualified. */
  lemma {:induction false} CountFollowsData(f: ListQuery, n: nat)
    ensures |Conditions(f, true, n)| == |Conditions(f, false, n)|
    ensures forall i :: 0 <= i < |Conditions(f, false, n)| ==>
              Conditions(f, true, n)[i] == ForCount(Conditions(f, false, n)[i])
  {
    if n > 0 {
      CountFollowsData(f, n - 1);
    }
  }

  function ForCount(c: Condition): Condition {
    match c
    case SearchBoth => SearchDescription
    case SearchDescription => SearchDescription
    case KindIs(_) => KindIs(false)
    case CategoryIs(_) => CategoryIs(false)
    case DateFrom(_) => DateFrom(false)
    case DateTo(_) => DateTo(false)
  }

  /** A type filter is added only for `income` or `expense`: any other value
      leaves both queries as if no type had been given. */
  lemma {:induction false} OtherKindsIgnored(f: ListQuery, forCount: bool, n: nat)
    requires !FiltersKind(f.kind)
    ensures Conditions(f, forCount, n) == Conditions(f.(kind := None), forCount, n)
    ensures Args(f, forCount, n) == Args(f.(kind := None), forCount, n)
    ensures forall i :: 0 <= i < |Conditions(f, forCount, n)| ==> !Conditions(f, forCount, n)[i].KindIs?
  {
    if n > 0 {
      OtherKindsIgnored(f, forCount, n - 1);
      PartIgnoresKind(f, n - 1, forCount);
      var prefix := Conditions(f, forCount, n - 1);
      var part := Part(f, n - 1, forCount);
      var all: seq<Condition> := prefix + part;
      forall i | 0 <= i < |all| ensures !all[i].KindIs? {
        if i >= |prefix| {
          assert all[i] == part[i - |prefix|];
        }
      }
    }
  }

  /** One filter other than the type is the same with or without the type. */
  lemma PartIgnoresKind(f: ListQuery, i: nat, forCount: bool)
    requires !FiltersKind(f.kind)
    ensures Part(f, i, forCount) == Part(f.(kind := None), i, forCount)
    ensures PartArgs(f, i, forCount) == PartArgs(f.(kind := None), i, forCount)
    ensures forall j :: 0 <= j < |Part(f, i, forCount)| ==> !Part(f, i, forCount)[j].KindIs?
  {
  }

  /** Without a search text the two queries select the same rows. */
  lemma CountAgreesWithoutSearch(f: ListQuery, r: Store.JoinedRow)
    requires !JsText.Truthy(f.q)
    ensures CountFilter(f, r) <==> DataFilter(f, r)
  {
  }

  /** With a search text, a row found only through its category's name is
      listed but not counted. */
  lemma CountMissesCategoryMatch(f: ListQuery, r: Store.JoinedRow)
    requires JsText.Truthy(f.q) && DataFilter(f, r)
    requires !JsText.Contains(r.row.description, f.q.value)
    ensures !CountFilter(f, r)
    ensures r.categoryName.Some? && JsText.Contains(r.categoryName.value, f.q.value)
  {
  }

  /** Such a row exists: searching `Groceries` lists a transaction without a
      description in the category `Groceries`, and does not count it. */
  lemma CountMissesExample()
    ensures var f := ListQuery(Some("Groceries"), None, None, None, None, None, None, None, None);
            var r := Store.JoinedRow(Store.TransactionRow(1, 1, 50.0, "", "2025-03-01", "expense", Some(1), 0),
                                     Some("Groceries"));
            DataFilter(f, r) && !CountFilter(f, r)
  {
    var g := "Groceries";
    assert JsText.OccursAt(g, g, 0) by {
      assert g[0..|g|] == g;
    }
  }

  /** The data query's filter block (lines 42-72): starts from the user id and
      pushes each filter's condition and values in turn. */
  method BuildDataFilter(userId: int, f: ListQuery) returns (conditions: seq<Condition>, params: seq<Sql.Value>)
    ensures conditions == DataConditions(f)
    ensures params == [Sql.Int(userId)] + DataArgs(f)
  {
    params := [Sql.Int(userId)];
    conditions := [];
    ghost var before, bound;
    before, bound := conditions, params;
    if JsText.Truthy(f.q) {
      conditions := conditions + [SearchBoth];
      params := params + [Sql.Text(Sql.ContainsPattern(f.q.value)), Sql.Text(Sql.ContainsPattern(f.q.value))];
    }
    assert conditions == before + Part(f, 0, false) && params == bound + PartArgs(f, 0, false);
    PushPart(userId, f, false, 0, before, bound, conditions, params);
    before, bound := conditions, params;
    if f.kind.Some? && f.kind.value != "" && (f.kind.value == "income" || f.kind.value == "expense") {
      conditions := conditions + [KindIs(true)];
      params := params + [Sql.Text(f.kind.value)];
    }
    assert conditions == before + Part(f, 1, false) && params == bound + PartArgs(f, 1, false);
    PushPart(userId, f, false, 1, before, bound, conditions, params);
    before, bound := conditions, params;
    if JsText.Truthy(f.categoryId) {
      conditions := conditions + [CategoryIs(true)];
      params := params + [Sql.Text(f.categoryId.value)];
    }
    assert conditions == before + Part(f, 2, false) && params == bound + PartArgs(f, 2, false);
    PushPart(userId, f, false, 2, before, bound, conditions, params);
    before, bound := conditions, params;
    if JsText.Truthy(f.startDate) {
      conditions := conditions + [DateFrom(true)];
      params := params + [Sql.Text(f.startDate.value)];
    }
    assert conditions == before + Part(f, 3, false) && params == bound + PartArgs(f, 3, false);
    PushPart(userId, f, false, 3, before, bound, conditions, params);
    before, bound := conditions, params;
    if JsText.Truthy(f.endDate) {
      conditions := conditions + [DateTo(true)];
      params := params + [Sql.Text(f.endDate.value)];
    }
    assert conditions == before + Part(f, 4, false) && params == bound + PartArgs(f, 4, false);
    PushPart(userId, f, false, 4, before, bound, conditions, params);
    ParamsArgs(userId, f, false, 5);
  }

  /** The count query's filter block (lines 102-129). */
  method BuildCountFilter(userId: int, f: ListQuery) returns (conditions: seq<Condition>, params: seq<Sql.Value>)
    ensures conditions == CountConditions(f)
    ensures params == [Sql.Int(userId)] + CountArgs(f)
  {
    params := [Sql.Int(userId)];
    conditions := [];
    ghost var before, bound;
    before, bound := conditions, params;
    if JsText.Truthy(f.q) {
      conditions := conditions + [SearchDescription];
      params := params + [Sql.Text(Sql.ContainsPattern(f.q.value))];
    }
    assert conditions == before + Part(f, 0, true) && params == bound + PartArgs(f, 0, true);
    PushPart(userId, f, true, 0, before, bound, conditions, params);
    before, bound := conditions, params;
    if f.kind.Some? && f.kind.value != "" && (f.kind.value == "income" || f.kind.value == "expense") {
      conditions := conditions + [KindIs(false)];
      params := params + [Sql.Text(f.kind.value)];
    }
    assert conditions == before + Part(f, 1, true) && params == bound + PartArgs(f, 1, true);
    PushPart(userId, f, true, 1, before, bound, conditions, params);
    before, bound := conditions, params;
    if JsText.Truthy(f.categoryId) {
      conditions := conditions + [CategoryIs(false)];
      params := params + [Sql.Text(f.categoryId.value)];
    }
    assert conditions == before + Part(f, 2, true) && params == bound + PartArgs(f, 2, true);
    PushPart(userId, f, true, 2, before, bound, conditions, params);
    before, bound := conditions, params;
    if JsText.Truthy(f.startDate) {
      conditions := conditions + [DateFrom(false)];
      params := params + [Sql.Text(f.startDate.value)];
    }
    assert conditions == before + Part(f, 3, true) && params == bound + PartArgs(f, 3, true);
    PushPart(userId, f, true, 3, before, bound, conditions, params);
    before, bound := conditions, params;
    if JsText.Truthy(f.endDate) {
      conditions := conditions + [DateTo(false)];
      params := params + [Sql.Text(f.endDate.value)];
    }
    assert conditions == before + Part(f, 4, true) && params == bound + PartArgs(f, 4, true);
    PushPart(userId, f, true, 4, before, bound, conditions, params);
    ParamsArgs(userId, f, true, 5);
  }
}
