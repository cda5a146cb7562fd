/**
 * The offline transactions page (frontend/src/pages/Transactions.jsx): saving
 * the form into the list (edit in place or append), deleting by id, the
 * search/type/date filter, the four sort orders, and the form-type reset.
 * The page's React state is a class whose fields the handlers update.
 */
module TransactionsPage {
  import opened Wrappers
  import JsText
  import JsNumber
  import ListOps
  import Sorting
  import opened LocalRecords

  datatype Filters = Filters(q: string, kind: string, date: string)

  /** The modal's form; every field is the text of its input. */
  datatype Form = Form(date: string, kind: string, categoryId: string, amount: string, note: string)

  /** The form `closeModal` restores: today's date, type `expense`, all else empty. */
  function BlankForm(today: string): Form {
    Form(today, "expense", "", "", "")
  }

  /** `editingId` is truthy: a non-empty id (null is `None`). */
  predicate IsEditing(editingId: Option<string>) {
    editingId.Some? && editingId.value != ""
  }

  /** The amount `handleSave` goes on with, or `None` when it returns early:
      date, category and amount text must be non-empty and the parsed amount a
      number greater than zero. */
  function AcceptedAmount(form: Form): (r: Option<real>)
    ensures r.Some? ==> r.value > 0.0 && JsNumber.ParseFloat(form.amount) == Some(r.value)
    ensures r.None? <==> form.date == "" || form.categoryId == "" || form.amount == ""
                         || JsNumber.ParseFloat(form.amount).None? || JsNumber.ParseFloat(form.amount).value <= 0.0
  {
    if form.date == "" || form.categoryId == "" || form.amount == "" then None
    else
      var amount := JsNumber.ParseFloat(form.amount);
      if amount.None? || amount.value <= 0.0 then None else amount
  }

  /** The edited copy `{...t, date, type, categoryId, amount, note: note.trim()}`. */
  function Edited(t: LocalTransaction, form: Form, amount: real): LocalTransaction {
    t.(date := form.date, kind := form.kind, categoryId := form.categoryId,
       amount := Some(amount), note := JsText.Trim(form.note))
  }

  /** The record a create appends, under the fresh id `uid()` produced. */
  function Created(id: string, form: Form, amount: real): LocalTransaction {
    LocalTransaction(id, form.date, form.kind, form.categoryId, Some(amount), JsText.Trim(form.note))
  }

  /** `transactions.map(t => t.id === id ? Edited(t) : t)`. */
  function EditById(ts: seq<LocalTransaction>, id: string, form: Form, amount: real): (r: seq<LocalTransaction>)
    ensures |r| == |ts|
    ensures forall i :: 0 <= i < |ts| && ts[i].id == id ==> r[i] == Edited(ts[i], form, amount) && r[i].id == id
    ensures forall i :: 0 <= i < |ts| && ts[i].id != id ==> r[i] == ts[i]
  {
    ListOps.MapWhere(ts, (t: LocalTransaction) => t.id == id, (t: LocalTransaction) => Edited(t, form, amount))
  }

  /** The list `handleSave` stores. */
  function SaveResult(ts: seq<LocalTransaction>, form: Form, editingId: Option<string>, freshId: string)
    : (r: seq<LocalTransaction>)
    ensures AcceptedAmount(form).None? ==> r == ts
    ensures AcceptedAmount(form).Some? && IsEditing(editingId) ==>
              |r| == |ts|
              && (forall i :: 0 <= i < |ts| && ts[i].id == editingId.value ==>
                    r[i] == Edited(ts[i], form, AcceptedAmount(form).value) && r[i].id == editingId.value)
              && (forall i :: 0 <= i < |ts| && ts[i].id != editingId.value ==> r[i] == ts[i])
    ensures AcceptedAmount(form).Some? && !IsEditing(editingId) ==>
              |r| == |ts| + 1 && r[..|ts|] == ts && r[|ts|] == Created(freshId, form, AcceptedAmount(form).value)
  {
    match AcceptedAmount(form)
    case None => ts
    case Some(amount) =>
      if IsEditing(editingId) then
        EditById(ts, editingId.value, form, amount)
      else
        ts + [Created(freshId, form, amount)]
  }

  /** `transactions.filter(t => t.id !== id)`. */
  function RemoveById(ts: seq<LocalTransaction>, id: string): (r: seq<LocalTransaction>)
    ensures forall i :: 0 <= i < |r| ==> r[i].id != id && r[i] in ts
    ensures forall i :: 0 <= i < |ts| && ts[i].id != id ==> ts[i] in r
  {
    ListOps.FilterMembers(ts, (t: LocalTransaction) => t.id != id);
    ListOps.Filter(ts, (t: LocalTransaction) => t.id != id)
  }

  /** Removal keeps the survivors in their original order. */
  lemma RemoveByIdAppend(a: seq<LocalTransaction>, b: seq<LocalTransaction>, id: string)
    ensures RemoveById(a + b, id) == RemoveById(a, id) + RemoveById(b, id)
  {
    ListOps.FilterAppend(a, b, (t: LocalTransaction) => t.id != id);
  }

  /** A list without that id is left as it was. */
  lemma RemoveAbsentId(ts: seq<LocalTransaction>, id: string)
    requires forall i :: 0 <= i < |ts| ==> ts[i].id != id
    ensures RemoveById(ts, id) == ts
  {
    ListOps.FilterKeepsAll(ts, (t: LocalTransaction) => t.id != id);
  }

  /** The filter's test on one record: the trimmed, lower-cased search text is
      empty or occurs in the lower-cased category name or note; the type filter
      is `all` or the record's type; the date filter is empty or the date. */
  predicate Passes(categories: seq<LocalCategory>, filters: Filters, t: LocalTransaction) {
    var q := JsText.ToLower(JsText.Trim(filters.q));
    && (q == "" || JsText.Contains(JsText.ToLower(CategoryName(categories, t.categoryId)), q)
                || JsText.Contains(JsText.ToLower(t.note), q))
    && (filters.kind == "all" || t.kind == filters.kind)
    && (filters.date == "" || t.date == filters.date)
  }

  /** `filteredTransactions`. */
  function FilteredTransactions(ts: seq<LocalTransaction>, categories: seq<LocalCategory>, filters: Filters)
    : (r: seq<LocalTransaction>)
    ensures forall i :: 0 <= i < |r| ==> r[i] in ts && Passes(categories, filters, r[i])
    ensures forall i :: 0 <= i < |ts| && Passes(categories, filters, ts[i]) ==> ts[i] in r
  {
    ListOps.FilterMembers(ts, (t: LocalTransaction) => Passes(categories, filters, t));
    ListOps.Filter(ts, (t: LocalTransaction) => Passes(categories, filters, t))
  }

  /** The search folds the app's accented capitals: searching `Ë` shows a
      record whose note starts with `ë`, such as `ëmbëlsira`. */
  lemma SearchFoldsAccents(categories: seq<LocalCategory>, t: LocalTransaction)
    requires t.note != [] && t.note[0] == 'ë'
    ensures Passes(categories, Filters("Ë", "all", ""), t)
  {
    var q := "Ë";
    JsText.TrimSolid('Ë');
    assert JsText.Trim(q) == q;
    JsText.AlbanianCapitals(t.note);
    assert JsText.Contains(JsText.ToLower(t.note), JsText.ToLower(JsText.Trim(q)));
  }

  /** With no search text, type `all` and no date every record is shown, in order. */
  lemma NoFilterShowsAll(ts: seq<LocalTransaction>, categories: seq<LocalCategory>, q: string)
    requires JsText.IsBlank(q)
    ensures FilteredTransactions(ts, categories, Filters(q, "all", "")) == ts
  {
    JsText.TrimEmptyIffBlank(q);
    ListOps.FilterKeepsAll(ts, (t: LocalTransaction) => Passes(categories, Filters(q, "all", ""), t));
  }

  /** The filter keeps the relative order of the records it shows. */
  lemma FilterKeepsOrder(a: seq<LocalTransaction>, b: seq<LocalTransaction>,
                         categories: seq<LocalCategory>, filters: Filters)
    ensures FilteredTransactions(a + b, categories, filters)
         == FilteredTransactions(a, categories, filters) + FilteredTransactions(b, categories, filters)
  {
    ListOps.FilterAppend(a, b, (t: LocalTransaction) => Passes(categories, filters, t));
  }

  /** `filteredCategories`: the categories of the form's type. */
  function FilteredCategories(categories: seq<LocalCategory>, kind: string): (r: seq<LocalCategory>)
    ensures forall i :: 0 <= i < |r| ==> r[i] in categories && r[i].kind == kind
    ensures forall i :: 0 <= i < |categories| && categories[i].kind == kind ==> categories[i] in r
  {
    ListOps.FilterMembers(categories, (c: LocalCategory) => c.kind == kind);
    ListOps.Filter(categories, (c: LocalCategory) => c.kind == kind)
  }

  predicate AmountDescending(a: LocalTransaction, b: LocalTransaction) {
    AmountOrZero(b) - AmountOrZero(a) <= 0.0
  }

  predicate AmountAscending(a: LocalTransaction, b: LocalTransaction) {
    AmountOrZero(a) - AmountOrZero(b) <= 0.0
  }

  predicate KeepOrder(a: LocalTransaction, b: LocalTransaction) {
    true
  }

  /** The comparator of each sort mode, as "may stay ahead"; an unknown mode
      compares everything equal, which leaves the order as it is. */
  function Precedes(mode: string): (le: (LocalTransaction, LocalTransaction) -> bool)
    ensures mode !in ["date_desc", "date_asc", "amount_desc", "amount_asc"] ==> forall a, b :: le(a, b)
  {
    if mode == "date_desc" then NewestFirst
    else if mode == "date_asc" then OldestFirst
    else if mode == "amount_desc" then AmountDescending
    else if mode == "amount_asc" then AmountAscending
    else KeepOrder
  }

  lemma PrecedesConsistent(mode: string)
    ensures Sorting.TotalPreorder(Precedes(mode))
  {
    if mode == "date_desc" {
      NewestFirstConsistent();
    } else if mode == "date_asc" {
      OldestFirstConsistent();
    }
  }

  /** `sortedTransactions`: a sorted copy of the filtered list. */
  function SortedTransactions(ts: seq<LocalTransaction>, categories: seq<LocalCategory>,
                              filters: Filters, mode: string): (r: seq<LocalTransaction>)
    ensures |r| == |FilteredTransactions(ts, categories, filters)|
  {
    Sorting.SortBy(FilteredTransactions(ts, categories, filters), Precedes(mode))
  }

  /** The sorted list holds exactly the filtered records, each as often. */
  lemma SortedIsPermutation(ts: seq<LocalTransaction>, categories: seq<LocalCategory>, filters: Filters, mode: string)
    ensures multiset(SortedTransactions(ts, categories, filters, mode))
         == multiset(FilteredTransactions(ts, categories, filters))
  {
    Sorting.SortByPermutes(FilteredTransactions(ts, categories, filters), Precedes(mode));
  }

  /** `date_desc`: newer dates first, and on the same date the greater id first. */
  lemma DateDescOrder(ts: seq<LocalTransaction>, categories: seq<LocalCategory>, filters: Filters)
    ensures var r := SortedTransactions(ts, categories, filters, "date_desc");
      forall i, j :: 0 <= i < j < |r| ==>
        (r[i].date != r[j].date && JsText.Compare(r[j].date, r[i].date) < 0)
        || (r[i].date == r[j].date && JsText.Compare(r[j].id, r[i].id) <= 0)
  {
    var r := SortedTransactions(ts, categories, filters, "date_desc");
    PrecedesConsistent("date_desc");
    Sorting.SortBySorted(FilteredTransactions(ts, categories, filters), NewestFirst);
    forall i, j | 0 <= i < j < |r| && r[i].date != r[j].date
      ensures JsText.Compare(r[j].date, r[i].date) < 0
    {
      assert NewestFirst(r[i], r[j]);
      JsText.CompareZero(r[j].date, r[i].date);
    }
  }

  /** `date_asc`: older dates first, and on the same date the smaller id first. */
  lemma DateAscOrder(ts: seq<LocalTransaction>, categories: seq<LocalCategory>, filters: Filters)
    ensures var r := SortedTransactions(ts, categories, filters, "date_asc");
      forall i, j :: 0 <= i < j < |r| ==>
        (r[i].date != r[j].date && JsText.Compare(r[i].date, r[j].date) < 0)
        || (r[i].date == r[j].date && JsText.Compare(r[i].id, r[j].id) <= 0)
  {
    var r := SortedTransactions(ts, categories, filters, "date_asc");
    PrecedesConsistent("date_asc");
    Sorting.SortBySorted(FilteredTransactions(ts, categories, filters), OldestFirst);
    forall i, j | 0 <= i < j < |r| && r[i].date != r[j].date
      ensures JsText.Compare(r[i].date, r[j].date) < 0
    {
      assert OldestFirst(r[i], r[j]);
      JsText.CompareZero(r[i].date, r[j].date);
    }
  }

  /** `amount_desc` and `amount_asc` order by amount alone (missing counts as 0). */
  lemma AmountOrder(ts: seq<LocalTransaction>, categories: seq<LocalCategory>, filters: Filters)
    ensures var r := SortedTransactions(ts, categories, filters, "amount_desc");
      forall i, j :: 0 <= i < j < |r| ==> AmountOrZero(r[i]) >= AmountOrZero(r[j])
    ensures var r := SortedTransactions(ts, categories, filters, "amount_asc");
      forall i, j :: 0 <= i < j < |r| ==> AmountOrZero(r[i]) <= AmountOrZero(r[j])
  {
    PrecedesConsistent("amount_desc");
    PrecedesConsistent("amount_asc");
    Sorting.SortBySorted(FilteredTransactions(ts, categories, filters), AmountDescending);
    Sorting.SortBySorted(FilteredTransactions(ts, categories, filters), AmountAscending);
  }

  /** The page's state: the loaded lists, filters, sort mode and modal form. */
  class Page {
    var transactions: seq<LocalTransaction>
    var categories: seq<LocalCategory>
    /** What `saveTransactions` last wrote under `et_transactions`. */
    var stored: seq<LocalTransaction>
    var filters: Filters
    var sort: string
    var modalOpen: bool
    var editingId: Option<string>
    var form: Form

    /** The initial state plus the mount effect that loads both lists. */
    constructor (storedTransactions: seq<LocalTransaction>, storedCategories: seq<LocalCategory>, today: string)
      ensures transactions == storedTransactions && stored == storedTransactions
      ensures categories == storedCategories
      ensures filters == Filters("", "all", "") && sort == "date_desc"
      ensures !modalOpen && editingId == None && form == BlankForm(today)
    {
      transactions := storedTransactions;
      stored := storedTransactions;
      categories := storedCategories;
      filters := Filters("", "all", "");
      sort := "date_desc";
      modalOpen := false;
      editingId := None;
      form := BlankForm(today);
    }

    /** `closeModal`. */
    method CloseModal(today: string)
      modifies this
      ensures !modalOpen && editingId == None && form == BlankForm(today)
      ensures transactions == old(transactions) && stored == old(stored) && categories == old(categories)
      ensures filters == old(filters) && sort == old(sort)
    {
      modalOpen := false;
      editingId := None;
      form := BlankForm(today);
    }

    /** `handleSave`: `freshId` is what `uid()` returns. */
    method HandleSave(freshId: string, today: string)
      modifies this
      ensures AcceptedAmount(old(form)).None? ==>
                transactions == old(transactions) && stored == old(stored) && form == old(form)
                && editingId == old(editingId) && modalOpen == old(modalOpen)
      ensures AcceptedAmount(old(form)).Some? ==>
                transactions == SaveResult(old(transactions), old(form), old(editingId), freshId)
                && stored == transactions
                && !modalOpen && editingId == None && form == BlankForm(today)
      ensures categories == old(categories) && filters == old(filters) && sort == old(sort)
    {
      if form.date == "" || form.categoryId == "" || form.amount == "" {
        return;
      }
      var amount := JsNumber.ParseFloat(form.amount);
      if amount.None? || amount.value <= 0.0 {
        return;
      }
      var updated;
      if editingId.Some? && editingId.value != "" {
        updated := EditById(transactions, editingId.value, form, amount.value);
      } else {
        updated := transactions + [Created(freshId, form, amount.value)];
      }
      transactions := updated;
      stored := updated;
      CloseModal(today);
    }

    /** `handleDelete`: `confirmed` is the answer to the confirmation dialog. */
    method HandleDelete(id: string, confirmed: bool)
      modifies this
      ensures transactions == (if confirmed then RemoveById(old(transactions), id) else old(transactions))
      ensures stored == (if confirmed then transactions else old(stored))
      ensures categories == old(categories) && form == old(form) && editingId == old(editingId)
      ensures filters == old(filters) && sort == old(sort) && modalOpen == old(modalOpen)
    {
      if !confirmed {
        return;
      }
      var updated := RemoveById(transactions, id);
      transactions := updated;
      stored := updated;
    }

    /** The type select's `onChange`: a new type also clears the chosen category. */
    method SetFormType(kind: string)
      modifies this
      ensures form == old(form).(kind := kind, categoryId := "")
      ensures transactions == old(transactions) && stored == old(stored) && categories == old(categories)
      ensures editingId == old(editingId) && modalOpen == old(modalOpen)
      ensures filters == old(filters) && sort == old(sort)
    {
      form := form.(kind := kind, categoryId := "");
    }

    /** `sortedTransactions`: the filtered records copied into a fresh array and
        sorted there with the comparator of the current mode. */
    method SortedView() returns (r: seq<LocalTransaction>)
      ensures r == SortedTransactions(transactions, categories, filters, sort)
    {
      var filtered := FilteredTransactions(transactions, categories, filters);
      var arr := new LocalTransaction[|filtered|](i requires 0 <= i < |filtered| => filtered[i]);
      assert arr[..] == filtered;
      Sorting.SortInPlace(arr, Precedes(sort));
      r := arr[..];
    }
  }
}
