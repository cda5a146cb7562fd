/**
 * The MySQL database both route files share: the `categories` and
 * `transactions` tables, each a map from id to row, with the statements the
 * routes send to them. What the engine itself enforces is `Valid`: primary
 * keys, AUTO_INCREMENT ids, the unique (user_id, name) key of categories and
 * the foreign key from a transaction to its category (ON DELETE SET NULL).
 * What the routes are meant to keep on top of that is `Consistent`.
 */
module Store {
  import opened Wrappers
  import ListOps

  datatype CategoryRow = CategoryRow(id: int, userId: int, name: string, description: string,
                                     kind: string, createdAt: int)

  datatype TransactionRow = TransactionRow(id: int, userId: int, amount: real, description: string,
                                           date: string, kind: string, categoryId: Option<int>,
                                           createdAt: int)

  /** A transaction with its category's name, as `LEFT JOIN categories c` gives
      it: `None` (NULL) when it has no category. */
  datatype JoinedRow = JoinedRow(row: TransactionRow, categoryName: Option<string>)

  predicate IsKind(kind: string) {
    kind == "income" || kind == "expense"
  }

  /** The rows of a table in ascending id order, for the ids below `bound`:
      the order a scan of the primary key yields them. */
  function Scan<R>(table: map<int, R>, bound: nat): (rows: seq<R>)
    ensures |rows| <= bound
  {
    if bound == 0 then []
    else Scan(table, bound - 1) + (if bound - 1 in table then [table[bound - 1]] else [])
  }

  /** A scan yields exactly the rows stored under the ids below `bound`. */
  lemma {:induction false} ScanMembers<R>(table: map<int, R>, bound: nat)
    ensures forall id :: 0 <= id < bound && id in table ==> table[id] in Scan(table, bound)
    ensures forall r :: r in Scan(table, bound) ==> exists id :: 0 <= id < bound && id in table && table[id] == r
  {
    if bound > 0 {
      ScanMembers(table, bound - 1);
    }
  }

  /** A table whose rows all differ, as rows carrying their own primary key
      do, scans without repeats. */
  lemma {:induction false} ScanDistinct<R>(table: map<int, R>, bound: nat)
    requires forall a, b :: a in table && b in table && table[a] == table[b] ==> a == b
    ensures ListOps.Distinct(Scan(table, bound))
  {
    if bound > 0 {
      ScanDistinct(table, bound - 1);
      ScanMembers(table, bound - 1);
      var prev := Scan(table, bound - 1);
      if bound - 1 in table {
        var x := table[bound - 1];
        assert x !in prev;
        var rows := prev + [x];
        forall i, j | 0 <= i < j < |rows| ensures rows[i] != rows[j] {
          if j == |prev| {
            assert rows[i] == prev[i];
          } else {
            assert rows[i] == prev[i] && rows[j] == prev[j];
          }
        }
      } else {
        assert Scan(table, bound) == prev;
      }
    }
  }

  /** `ON DELETE SET NULL`: the transactions of the deleted category lose it. */
  function Detach(ts: map<int, TransactionRow>, categoryId: int): (r: map<int, TransactionRow>)
    ensures r.Keys == ts.Keys
    ensures forall id :: id in ts && ts[id].categoryId == Some(categoryId) ==> r[id] == ts[id].(categoryId := None)
    ensures forall id :: id in ts && ts[id].categoryId != Some(categoryId) ==> r[id] == ts[id]
    ensures forall id :: id in r ==> r[id].categoryId != Some(categoryId)
  {
    map id | id in ts :: if ts[id].categoryId == Some(categoryId) then ts[id].(categoryId := None) else ts[id]
  }

  class Database {
    var categories: map<int, CategoryRow>
    var transactions: map<int, TransactionRow>
    var nextCategoryId: nat
    var nextTransactionId: nat

    constructor ()
      ensures categories == map[] && transactions == map[]
      ensures nextCategoryId == 1 && nextTransactionId == 1
      ensures Consistent()
    {
      categories := map[];
      transactions := map[];
      nextCategoryId := 1;
      nextTransactionId := 1;
    }

    /** The constraints the engine enforces. */
    predicate Valid()
      reads this
    {
      && 0 < nextCategoryId && 0 < nextTransactionId
      && (forall id :: id in categories ==> categories[id].id == id && 0 < id < nextCategoryId)
      && (forall id :: id in transactions ==> transactions[id].id == id && 0 < id < nextTransactionId)
      && (forall a, b ::
            (a in categories && b in categories && categories[a].userId == categories[b].userId
             && categories[a].name == categories[b].name) ==> a == b)
      && (forall id :: id in transactions && transactions[id].categoryId.Some? ==>
            transactions[id].categoryId.value in categories)
    }

    /** What the routes keep besides: categories have a name and a type of the
        enumeration; transactions a positive amount, a date, a type of the
        enumeration, and a category only of their own user. */
    predicate Consistent()
      reads this
    {
      && Valid()
      && (forall id :: id in categories ==> categories[id].name != "" && IsKind(categories[id].kind))
      && (forall id :: id in transactions ==>
            transactions[id].amount > 0.0 && transactions[id].date != "" && IsKind(transactions[id].kind))
      && (forall id :: id in transactions && transactions[id].categoryId.Some? ==>
            transactions[id].categoryId.value in categories
            && categories[transactions[id].categoryId.value].userId == transactions[id].userId)
    }

    /** `SELECT id FROM categories WHERE id = ? AND user_id = ?` finds a row. */
    predicate OwnsCategory(userId: int, id: int)
      reads this
    {
      id in categories && categories[id].userId == userId
    }

    /** `SELECT id FROM transactions WHERE id = ? AND user_id = ?` finds a row. */
    predicate OwnsTransaction(userId: int, id: int)
      reads this
    {
      id in transactions && transactions[id].userId == userId
    }

    /** A category other than the one with id `except` already has that user
        and name: writing the pair again breaks the unique key. */
    predicate NameTaken(userId: int, name: string, except: int)
      reads this
    {
      exists id :: id in categories && id != except && categories[id].userId == userId && categories[id].name == name
    }

    /** The category name the join finds for a transaction. */
    function CategoryName(categoryId: Option<int>): Option<string>
      reads this
    {
      if categoryId.Some? && categoryId.value in categories then Some(categories[categoryId.value].name) else None
    }

    function Joined(t: TransactionRow): JoinedRow
      reads this
    {
      JoinedRow(t, CategoryName(t.categoryId))
    }

    /** `INSERT INTO categories (name, description, type, user_id)`: the new id,
        or `None` for ER_DUP_ENTRY. */
    method InsertCategory(userId: int, name: string, description: string, kind: string, now: int)
      returns (id: Option<int>)
      requires Valid()
      modifies this
      ensures Valid()
      ensures old(NameTaken(userId, name, 0)) ==> id.None? && unchanged(this)
      ensures !old(NameTaken(userId, name, 0)) ==>
                && id == Some(old(nextCategoryId))
                && categories == old(categories)[id.value := CategoryRow(id.value, userId, name, description, kind, now)]
                && nextCategoryId == old(nextCategoryId) + 1
                && transactions == old(transactions) && nextTransactionId == old(nextTransactionId)
    {
      if NameTaken(userId, name, 0) {
        return None;
      }
      id := Some(nextCategoryId);
      categories := categories[nextCategoryId := CategoryRow(nextCategoryId, userId, name, description, kind, now)];
      nextCategoryId := nextCategoryId + 1;
    }

    /** `UPDATE categories SET name = ?, description = ?, type = ? WHERE id = ?
        AND user_id = ?`: `false` for ER_DUP_ENTRY; a row that does not match
        is left alone. */
    method UpdateCategory(id: int, userId: int, name: string, description: string, kind: string)
      returns (ok: bool)
      requires Valid()
      modifies this
      ensures Valid()
      ensures old(OwnsCategory(userId, id)) && old(NameTaken(userId, name, id)) ==> !ok && unchanged(this)
      ensures old(OwnsCategory(userId, id)) && !old(NameTaken(userId, name, id)) ==>
                && ok
                && categories == old(categories)[id := old(categories)[id].(name := name, description := description, kind := kind)]
                && transactions == old(transactions)
                && nextCategoryId == old(nextCategoryId) && nextTransactionId == old(nextTransactionId)
      ensures !old(OwnsCategory(userId, id)) ==> ok && unchanged(this)
    {
      if !OwnsCategory(userId, id) {
        return true;
      }
      if NameTaken(userId, name, id) {
        return false;
      }
      categories := categories[id := categories[id].(name := name, description := description, kind := kind)];
      ok := true;
    }

    /** `DELETE FROM categories WHERE id = ? AND user_id = ?`, with the foreign
        key's `ON DELETE SET NULL`. */
    method DeleteCategory(id: int, userId: int)
      requires Valid()
      modifies this
      ensures Valid()
      ensures old(OwnsCategory(userId, id)) ==>
                categories == old(categories) - {id} && transactions == Detach(old(transactions), id)
      ensures !old(OwnsCategory(userId, id)) ==> categories == old(categories) && transactions == old(transactions)
      ensures nextCategoryId == old(nextCategoryId) && nextTransactionId == old(nextTransactionId)
    {
      if OwnsCategory(userId, id) {
        categories := categories - {id};
        transactions := Detach(transactions, id);
      }
    }

    /** `INSERT INTO transactions (amount, description, date, type, category_id,
        user_id)`: the new id, or `None` when the engine refuses the row (a NaN
        amount, or a category id with no category). */
    method InsertTransaction(amount: Option<real>, description: string, date: string, kind: string,
                             categoryId: Option<int>, userId: int, now: int)
      returns (id: Option<int>)
      requires Valid()
      modifies this
      ensures Valid()
      ensures amount.None? || (categoryId.Some? && old(categoryId.value !in categories)) ==> id.None? && unchanged(this)
      ensures amount.Some? && (categoryId.None? || old(categoryId.value in categories)) ==>
                && id == Some(old(nextTransactionId))
                && transactions == old(transactions)[id.value :=
                     TransactionRow(id.value, userId, amount.value, description, date, kind, categoryId, now)]
                && nextTransactionId == old(nextTransactionId) + 1
                && categories == old(categories) && nextCategoryId == old(nextCategoryId)
    {
      if amount.None? || (categoryId.Some? && categoryId.value !in categories) {
        return None;
      }
      id := Some(nextTransactionId);
      transactions := transactions[nextTransactionId :=
        TransactionRow(nextTransactionId, userId, amount.value, description, date, kind, categoryId, now)];
      nextTransactionId := nextTransactionId + 1;
    }

    /** `UPDATE transactions SET amount = ?, description = ?, date = ?, type = ?,
        category_id = ? WHERE id = ? AND user_id = ?`: `false` when the engine
        refuses the values; a row that does not match is left alone. */
    method UpdateTransaction(id: int, userId: int, amount: Option<real>, description: string, date: string,
                             kind: string, categoryId: Option<int>)
      returns (ok: bool)
      requires Valid()
      modifies this
      ensures Valid()
      ensures amount.None? || (categoryId.Some? && old(categoryId.value !in categories)) ==> !ok && unchanged(this)
      ensures amount.Some? && (categoryId.None? || old(categoryId.value in categories)) && old(OwnsTransaction(userId, id)) ==>
                && ok
                && transactions == old(transactions)[id := old(transactions)[id].(amount := amount.value,
                     description := description, date := date, kind := kind, categoryId := categoryId)]
                && categories == old(categories)
                && nextCategoryId == old(nextCategoryId) && nextTransactionId == old(nextTransactionId)
      ensures amount.Some? && (categoryId.None? || old(categoryId.value in categories)) && !old(OwnsTransaction(userId, id)) ==>
                ok && unchanged(this)
    {
      if amount.None? || (categoryId.Some? && categoryId.value !in categories) {
        return false;
      }
      ok := true;
      if OwnsTransaction(userId, id) {
        transactions := transactions[id := transactions[id].(amount := amount.value, description := description,
                                                             date := date, kind := kind, categoryId := categoryId)];
      }
    }

    /** `DELETE FROM transactions WHERE id = ? AND user_id = ?`. */
    method DeleteTransaction(id: int, userId: int)
      requires Valid()
      modifies this
      ensures Valid()
      ensures old(OwnsTransaction(userId, id)) ==> transactions == old(transactions) - {id}
      ensures !old(OwnsTransaction(userId, id)) ==> transactions == old(transactions)
      ensures categories == old(categories)
      ensures nextCategoryId == old(nextCategoryId) && nextTransactionId == old(nextTransactionId)
    {
      if OwnsTransaction(userId, id) {
        transactions := transactions - {id};
      }
    }
  }
}
