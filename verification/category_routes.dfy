/**
 * The category routes (expense-tracker/backend/src/routes/categories.js): the
 * caller's list, and create, update and delete, each checked against the
 * caller's user id. The database is the shared `Store.Database`; the clock is
 * the parameter `now`.
 */
module CategoryRoutes {
  import opened Wrappers
  import JsText
  import ListOps
  import Sorting
  import Store

  /** The request body: each field possibly missing. */
  datatype CategoryBody = CategoryBody(name: Option<string>, description: Option<string>, kind: Option<string>)

  datatype Payload = Message(text: string) | One(category: Store.CategoryRow) | Many(categories: seq<Store.CategoryRow>)

  /** The status code and the JSON body of a response. */
  datatype Reply = Reply(status: nat, payload: Payload)

  const NameRequired := "Category name is required"
  const TypeInvalid := "Category type must be income or expense"
  const NameExists := "Category name already exists"
  const NotFound := "Category not found"
  const Deleted := "Category deleted successfully"

  /** What the checks make of a body: the message of the first check that
      fails, or the name, description and type to store. */
  datatype Checked = Rejected(message: string) | Accepted(name: string, description: string, kind: string)

  /** The checks create and update make before any query: a name is required,
      and the type, `expense` when missing or empty, must be of the
      enumeration. The description is stored as `description || ''`. */
  function Check(body: CategoryBody): (r: Checked)
    ensures !JsText.Truthy(body.name) ==> r == Rejected(NameRequired)
    ensures JsText.Truthy(body.name) && JsText.Truthy(body.kind) && !Store.IsKind(body.kind.value) ==> r == Rejected(TypeInvalid)
    ensures r.Accepted? <==> JsText.Truthy(body.name) && (!JsText.Truthy(body.kind) || Store.IsKind(body.kind.value))
    ensures r.Accepted? ==> r.name == body.name.value && r.name != "" && Store.IsKind(r.kind)
    ensures r.Accepted? ==> (r.kind == "expense" <==> !JsText.Truthy(body.kind) || body.kind.value == "expense")
    ensures r.Accepted? ==> r.description == body.description.GetOr("")
  {
    if !JsText.Truthy(body.name) then Rejected(NameRequired)
    else
      var kind := if JsText.Truthy(body.kind) then body.kind.value else "expense";
      if !Store.IsKind(kind) then Rejected(TypeInvalid)
      else Accepted(body.name.value, if JsText.Truthy(body.description) then body.description.value else "", kind)
  }

  /** `ORDER BY created_at DESC`. */
  predicate NewestFirst(a: Store.CategoryRow, b: Store.CategoryRow) {
    a.createdAt >= b.createdAt
  }

  lemma NewestFirstConsistent()
    ensures Sorting.TotalPreorder(NewestFirst)
  {
  }

  function IsOwnedBy(userId: int): Store.CategoryRow -> bool {
    (c: Store.CategoryRow) => c.userId == userId
  }

  /** GET `/`: the caller's categories, newest first. */
  method List(db: Store.Database, userId: int) returns (reply: Reply)
    requires db.Valid()
    ensures reply.status == 200 && reply.payload.Many?
    ensures forall c :: c in reply.payload.categories ==>
              c.userId == userId && c.id in db.categories && db.categories[c.id] == c
    ensures forall id :: id in db.categories && db.categories[id].userId == userId ==>
              db.categories[id] in reply.payload.categories
    ensures forall i, j :: 0 <= i < j < |reply.payload.categories| ==>
              reply.payload.categories[i].id != reply.payload.categories[j].id
    ensures Sorting.Sorted(reply.payload.categories, NewestFirst)
  {
    ListedRows(db.categories, db.nextCategoryId, userId);
    reply := Reply(200, Many(Listed(db.categories, db.nextCategoryId, userId)));
  }

  /** The caller's rows of the table, newest first. */
  function Listed(table: map<int, Store.CategoryRow>, bound: nat, userId: int): seq<Store.CategoryRow> {
    Sorting.SortBy(ListOps.Filter(Store.Scan(table, bound), IsOwnedBy(userId)), NewestFirst)
  }

  lemma ListedRows(table: map<int, Store.CategoryRow>, bound: nat, userId: int)
    requires forall id :: id in table ==> table[id].id == id && 0 < id < bound
    ensures forall c :: c in Listed(table, bound, userId) ==>
              c.userId == userId && c.id in table && table[c.id] == c
    ensures forall id :: id in table && table[id].userId == userId ==>
              table[id] in Listed(table, bound, userId)
    ensures forall i, j :: 0 <= i < j < |Listed(table, bound, userId)| ==>
              Listed(table, bound, userId)[i].id != Listed(table, bound, userId)[j].id
    ensures Sorting.Sorted(Listed(table, bound, userId), NewestFirst)
  {
    ListedMembers(table, bound, userId);
    ListedDistinct(table, bound, userId);
    StoredRowsHaveDistinctIds(table, Listed(table, bound, userId));
    NewestFirstConsistent();
    Sorting.SortBySorted(ListOps.Filter(Store.Scan(table, bound), IsOwnedBy(userId)), NewestFirst);
  }

  lemma ListedMembers(table: map<int, Store.CategoryRow>, bound: nat, userId: int)
    requires forall id :: id in table ==> 0 < id < bound
    ensures forall c :: c in Listed(table, bound, userId) ==> c.userId == userId && c in table.Values
    ensures forall id :: id in table && table[id].userId == userId ==>
              table[id] in Listed(table, bound, userId)
  {
    var scanned := Store.Scan(table, bound);
    var owned := ListOps.Filter(scanned, IsOwnedBy(userId));
    var rows := Sorting.SortBy(owned, NewestFirst);
    Store.ScanMembers(table, bound);
    ListOps.FilterMembers(scanned, IsOwnedBy(userId));
    Sorting.SortByPermutes(owned, NewestFirst);
    forall c | c in rows
      ensures c.userId == userId && c in table.Values
    {
      assert c in multiset(owned);
      var k :| 0 <= k < |owned| && owned[k] == c;
    }
    forall id | id in table && table[id].userId == userId
      ensures table[id] in rows
    {
      assert table[id] in owned;
      assert table[id] in multiset(rows);
    }
  }

  lemma ListedDistinct(table: map<int, Store.CategoryRow>, bound: nat, userId: int)
    requires forall id :: id in table ==> table[id].id == id
    ensures ListOps.Distinct(Listed(table, bound, userId))
  {
    var scanned := Store.Scan(table, bound);
    var owned := ListOps.Filter(scanned, IsOwnedBy(userId));
    KeyedScanDistinct(table, bound);
    ListOps.FilterDistinct(scanned, IsOwnedBy(userId));
    Sorting.SortByPermutes(owned, NewestFirst);
    ListOps.PermutationKeepsDistinct(owned, Sorting.SortBy(owned, NewestFirst));
  }

  /** Rows stored under their own id scan without repeats. */
  lemma KeyedScanDistinct(table: map<int, Store.CategoryRow>, bound: nat)
    requires forall id :: id in table ==> table[id].id == id
    ensures ListOps.Distinct(Store.Scan(table, bound))
  {
    Store.ScanDistinct(table, bound);
  }

  /** Distinct rows each stored under its own id have distinct ids. */
  lemma StoredRowsHaveDistinctIds(table: map<int, Store.CategoryRow>, rows: seq<Store.CategoryRow>)
    requires ListOps.Distinct(rows)
    requires forall c :: c in rows ==> c.id in table && table[c.id] == c
    ensures forall i, j :: 0 <= i < j < |rows| ==> rows[i].id != rows[j].id
  {
    forall i, j | 0 <= i < j < |rows| ensures rows[i].id != rows[j].id {
      assert rows[i] in rows && rows[j] in rows;
    }
  }

  /** POST `/`. */
  method Create(db: Store.Database, userId: int, body: CategoryBody, now: int) returns (reply: Reply)
    requires db.Consistent()
    modifies db
    ensures db.Consistent()
    ensures Check(body).Rejected? ==> reply == Reply(400, Message(Check(body).message)) && unchanged(db)
    ensures Check(body).Accepted? && old(db.NameTaken(userId, Check(body).name, 0)) ==>
              reply == Reply(409, Message(NameExists)) && unchanged(db)
    ensures Check(body).Accepted? && !old(db.NameTaken(userId, Check(body).name, 0)) ==>
              var c := Check(body);
              var row := Store.CategoryRow(old(db.nextCategoryId), userId, c.name, c.description, c.kind, now);
              && reply == Reply(201, One(row))
              && db.categories == old(db.categories)[row.id := row]
              && db.transactions == old(db.transactions)
  {
    var checked := Check(body);
    if checked.Rejected? {
      return Reply(400, Message(checked.message));
    }
    var id := db.InsertCategory(userId, checked.name, checked.description, checked.kind, now);
    if id.None? {
      return Reply(409, Message(NameExists));
    }
    reply := Reply(201, One(db.categories[id.value]));
  }

  /** PUT `/:id`: only the name, description and type of the caller's category
      change. */
  method Update(db: Store.Database, userId: int, id: int, body: CategoryBody) returns (reply: Reply)
    requires db.Consistent()
    modifies db
    ensures db.Consistent()
    ensures Check(body).Rejected? ==> reply == Reply(400, Message(Check(body).message)) && unchanged(db)
    ensures Check(body).Accepted? && !old(db.OwnsCategory(userId, id)) ==>
              reply == Reply(404, Message(NotFound)) && unchanged(db)
    ensures Check(body).Accepted? && old(db.OwnsCategory(userId, id)) && old(db.NameTaken(userId, Check(body).name, id)) ==>
              reply == Reply(409, Message(NameExists)) && unchanged(db)
    ensures Check(body).Accepted? && old(db.OwnsCategory(userId, id)) && !old(db.NameTaken(userId, Check(body).name, id)) ==>
              var c := Check(body);
              var row := old(db.categories)[id].(name := c.name, description := c.description, kind := c.kind);
              && reply == Reply(200, One(row))
              && db.categories == old(db.categories)[id := row]
              && db.transactions == old(db.transactions)
  {
    var checked := Check(body);
    if checked.Rejected? {
      return Reply(400, Message(checked.message));
    }
    if !db.OwnsCategory(userId, id) {
      return Reply(404, Message(NotFound));
    }
    var ok := db.UpdateCategory(id, userId, checked.name, checked.description, checked.kind);
    if !ok {
      return Reply(409, Message(NameExists));
    }
    reply := Reply(200, One(db.categories[id]));
  }

  /** DELETE `/:id`: the caller's category goes, and its transactions stay
      without a category. */
  method Delete(db: Store.Database, userId: int, id: int) returns (reply: Reply)
    requires db.Consistent()
    modifies db
    ensures db.Consistent()
    ensures !old(db.OwnsCategory(userId, id)) ==> reply == Reply(404, Message(NotFound)) && unchanged(db)
    ensures old(db.OwnsCategory(userId, id)) ==>
              && reply == Reply(200, Message(Deleted))
              && db.categories == old(db.categories) - {id}
              && db.transactions == Store.Detach(old(db.transactions), id)
  {
    if !db.OwnsCategory(userId, id) {
      return Reply(404, Message(NotFound));
    }
    db.DeleteCategory(id, userId);
    reply := Reply(200, Message(Deleted));
  }
}
