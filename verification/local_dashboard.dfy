/**
 * The offline dashboard (frontend/src/pages/Dashboard.jsx): income, expense and
 * balance totals over the stored transactions, and the five newest of them.
 */
module LocalDashboard {
  import ListOps
  import Sorting
  import opened LocalRecords

  /** `list.reduce((sum, t) => sum + (parseFloat(t.amount) || 0), 0)`. */
  function SumAmounts(ts: seq<LocalTransaction>): real {
    if ts == [] then 0.0 else SumAmounts(ts[..|ts| - 1]) + AmountOrZero(ts[|ts| - 1])
  }

  function IsOfKind(kind: string): LocalTransaction -> bool {
    (t: LocalTransaction) => t.kind == kind
  }

  /** `loadedTransactions.filter(t => t.type === kind).reduce(...)`. */
  function Total(ts: seq<LocalTransaction>, kind: string): real {
    SumAmounts(ListOps.Filter(ts, IsOfKind(kind)))
  }

  /** The reference reading of a total: each record of that type adds its
      amount (0 when missing), every other record adds nothing. */
  function AmountIfKind(ts: seq<LocalTransaction>, kind: string): real {
    if ts == [] then 0.0
    else (if ts[0].kind == kind then AmountOrZero(ts[0]) else 0.0) + AmountIfKind(ts[1..], kind)
  }

  lemma {:induction false} SumAmountsAppend(a: seq<LocalTransaction>, b: seq<LocalTransaction>)
    ensures SumAmounts(a + b) == SumAmounts(a) + SumAmounts(b)
    decreases |b|
  {
    if b == [] {
      assert a + b == a;
    } else {
      assert (a + b)[..|a + b| - 1] == a + b[..|b| - 1];
      SumAmountsAppend(a, b[..|b| - 1]);
    }
  }

  /** Filtering by type and summing is the sum of that type's amounts. */
  lemma {:induction false} TotalIsSumOfKind(ts: seq<LocalTransaction>, kind: string)
    ensures Total(ts, kind) == AmountIfKind(ts, kind)
  {
    if ts != [] {
      TotalIsSumOfKind(ts[1..], kind);
      var head := if ts[0].kind == kind then [ts[0]] else [];
      assert ListOps.Filter(ts, IsOfKind(kind)) == head + ListOps.Filter(ts[1..], IsOfKind(kind));
      SumAmountsAppend(head, ListOps.Filter(ts[1..], IsOfKind(kind)));
      assert SumAmounts(head) == if ts[0].kind == kind then AmountOrZero(ts[0]) else 0.0 by {
        if ts[0].kind == kind { assert head[..0] == []; }
      }
    }
  }

  /** Saving one more record changes only the total of its own type. */
  lemma TotalAfterAppend(ts: seq<LocalTransaction>, t: LocalTransaction, kind: string)
    ensures Total(ts + [t], kind) == Total(ts, kind) + (if t.kind == kind then AmountOrZero(t) else 0.0)
  {
    ListOps.FilterAppend(ts, [t], IsOfKind(kind));
    SumAmountsAppend(ListOps.Filter(ts, IsOfKind(kind)), ListOps.Filter([t], IsOfKind(kind)));
  }

  /** What the mount effect puts in state. */
  datatype Summary = Summary(income: real, expense: real, balance: real, latest: seq<LocalTransaction>)

  /** The five newest records: a sorted copy, sliced. */
  function Latest(ts: seq<LocalTransaction>): (r: seq<LocalTransaction>)
    ensures |r| == ListOps.Min(5, |ts|)
  {
    Sorting.SortBy(ts, NewestFirst)[..ListOps.Min(5, |ts|)]
  }

  function Summarize(loaded: seq<LocalTransaction>): (s: Summary)
    ensures s.balance == s.income - s.expense
    ensures s.income == AmountIfKind(loaded, "income") && s.expense == AmountIfKind(loaded, "expense")
    ensures s.latest == Latest(loaded)
  {
    TotalIsSumOfKind(loaded, "income");
    TotalIsSumOfKind(loaded, "expense");
    var income := Total(loaded, "income");
    var expense := Total(loaded, "expense");
    Summary(income, expense, income - expense, Latest(loaded))
  }

  /** The latest list has `min(5, n)` records, all taken from the loaded list,
      in newest-first order, and none left out is newer than one shown. */
  lemma LatestProperties(ts: seq<LocalTransaction>)
    ensures |Latest(ts)| == ListOps.Min(5, |ts|)
    ensures multiset(Latest(ts)) <= multiset(ts)
    ensures Sorting.Sorted(Latest(ts), NewestFirst)
    ensures var sorted := Sorting.SortBy(ts, NewestFirst);
      forall i, j :: 0 <= i < |Latest(ts)| <= j < |ts| ==> NewestFirst(sorted[i], sorted[j])
  {
    var sorted := Sorting.SortBy(ts, NewestFirst);
    var k := ListOps.Min(5, |ts|);
    NewestFirstConsistent();
    Sorting.SortBySorted(ts, NewestFirst);
    Sorting.SortByPermutes(ts, NewestFirst);
    assert sorted == sorted[..k] + sorted[k..];
    assert multiset(sorted) == multiset(sorted[..k]) + multiset(sorted[k..]);
  }
}
