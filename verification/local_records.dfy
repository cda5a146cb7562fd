/**
 * The records the offline pages keep in browser storage (`et_transactions`,
 * `et_categories`) and the helpers both of those pages share: the category-name
 * lookup and the "newest first" order.
 */
module LocalRecords {
  import opened Wrappers
  import JsText
  import Sorting

  /** A stored transaction (`kind` is the record's `type` field). The model
      reads a missing `note`, `categoryId`, `date` or `id` as the empty string,
      and a missing or null amount as `None`. */
  datatype LocalTransaction = LocalTransaction(
    id: string, date: string, kind: string, categoryId: string, amount: Option<real>, note: string)

  datatype LocalCategory = LocalCategory(id: string, name: string, kind: string)

  /** `t.amount || 0`, and equally `parseFloat(t.amount) || 0` on a stored number. */
  function AmountOrZero(t: LocalTransaction): real {
    if t.amount.Some? then t.amount.value else 0.0
  }

  /** `categories.find(c => c.id === categoryId)?.name ?? "Unknown"`. */
  function CategoryName(categories: seq<LocalCategory>, categoryId: string): (name: string)
    ensures (forall i :: 0 <= i < |categories| ==> categories[i].id != categoryId) ==> name == "Unknown"
    ensures forall k :: 0 <= k < |categories| && categories[k].id == categoryId
              && (forall i :: 0 <= i < k ==> categories[i].id != categoryId)
              ==> name == categories[k].name
  {
    if categories == [] then "Unknown"
    else if categories[0].id == categoryId then categories[0].name
    else CategoryName(categories[1..], categoryId)
  }

  /** The comparator `(a, b) => b.date !== a.date ? b.date.localeCompare(a.date)
      : b.id.localeCompare(a.id)` is at most zero: `a` may stay ahead of `b`
      when it is newer, or equally new with a greater-or-equal id. */
  predicate NewestFirst(a: LocalTransaction, b: LocalTransaction) {
    if a.date != b.date then JsText.Compare(b.date, a.date) <= 0
    else JsText.Compare(b.id, a.id) <= 0
  }

  /** The reverse order, `date_asc`: older first, then smaller id first. */
  predicate OldestFirst(a: LocalTransaction, b: LocalTransaction) {
    if a.date != b.date then JsText.Compare(a.date, b.date) <= 0
    else JsText.Compare(a.id, b.id) <= 0
  }

  lemma CompareAntisymmetric(a: string, b: string)
    requires JsText.Compare(a, b) <= 0 && JsText.Compare(b, a) <= 0
    ensures a == b
  {
    JsText.CompareFlip(a, b);
    JsText.CompareZero(a, b);
  }

  /** Ordering by (date, id) both descending is a consistent comparator. */
  lemma NewestFirstConsistent()
    ensures Sorting.TotalPreorder(NewestFirst)
  {
    forall a: LocalTransaction, b: LocalTransaction ensures NewestFirst(a, b) || NewestFirst(b, a) {
      JsText.CompareFlip(a.date, b.date);
      JsText.CompareFlip(a.id, b.id);
    }
    forall a: LocalTransaction, b: LocalTransaction, c: LocalTransaction
      | NewestFirst(a, b) && NewestFirst(b, c) ensures NewestFirst(a, c)
    {
      if a.date == b.date && b.date == c.date {
        JsText.CompareTransitive(c.id, b.id, a.id);
      } else if a.date != b.date && b.date != c.date {
        JsText.CompareTransitive(c.date, b.date, a.date);
        if a.date == c.date {
          CompareAntisymmetric(b.date, a.date);
        }
      }
    }
  }

  /** Ordering by (date, id) both ascending is a consistent comparator. */
  lemma OldestFirstConsistent()
    ensures Sorting.TotalPreorder(OldestFirst)
  {
    forall a: LocalTransaction, b: LocalTransaction ensures OldestFirst(a, b) || OldestFirst(b, a) {
      JsText.CompareFlip(a.date, b.date);
      JsText.CompareFlip(a.id, b.id);
    }
    forall a: LocalTransaction, b: LocalTransaction, c: LocalTransaction
      | OldestFirst(a, b) && OldestFirst(b, c) ensures OldestFirst(a, c)
    {
      if a.date == b.date && b.date == c.date {
        JsText.CompareTransitive(a.id, b.id, c.id);
      } else if a.date != b.date && b.date != c.date {
        JsText.CompareTransitive(a.date, b.date, c.date);
        if a.date == c.date {
          CompareAntisymmetric(a.date, b.date);
        }
      }
    }
  }
}
