/**
 * The API client of the demo-capable frontend (expense-tracker/frontend/src/lib/api.js):
 * the request and response interceptors, demo-mode login and register, and the
 * records the demo mode builds instead of calling the backend. A stored token
 * starting with `demo-token` switches every endpoint to demo mode and keeps it
 * out of the `Authorization` header.
 */
module DemoClient {
  import opened Wrappers
  import JsText
  import JsNumber
  import Session

  const DemoToken := "demo-token-123"
  const DemoPrefix := "demo-token"

  /** `token && token.startsWith('demo-token')`: the endpoints answer locally. */
  predicate InDemoMode(token: Option<string>) {
    JsText.Truthy(token) && JsText.StartsWith(token.value, DemoPrefix)
  }

  /** The request interceptor: `Bearer <token>` for a stored token that is not a demo token. */
  function AuthorizationHeader(token: Option<string>): (header: Option<string>)
    ensures header.Some? <==> JsText.Truthy(token) && !JsText.StartsWith(token.value, DemoPrefix)
    ensures header.Some? ==> header.value == "Bearer " + token.value
  {
    if JsText.Truthy(token) && !JsText.StartsWith(token.value, DemoPrefix) then Some("Bearer " + token.value) else None
  }

  /** Every request is answered in demo mode, or carries the token, or has no
      token to carry; never two of these. */
  lemma DemoOrAuthorized(token: Option<string>)
    ensures InDemoMode(token) ==> AuthorizationHeader(token).None?
    ensures !InDemoMode(token) && JsText.Truthy(token) ==> AuthorizationHeader(token) == Some("Bearer " + token.value)
    ensures !JsText.Truthy(token) ==> !InDemoMode(token) && AuthorizationHeader(token).None?
  {
  }

  /** What an error response carries: its status and `data.message`, if any. */
  datatype ErrorResponse = ErrorResponse(status: int, message: Option<string>)

  /** An axios error: the response, if one arrived, and the error `code`. */
  datatype HttpError = HttpError(response: Option<ErrorResponse>, code: string)

  /** What the response interceptor rejects with: the original error, or the
      friendly error carrying the response and its status. */
  datatype Rejection =
    | Original(error: HttpError)
    | Friendly(message: string, response: Option<ErrorResponse>, status: Option<int>)

  const NetworkText := "The server is not reachable. Please make sure the backend is running."
  const GenericText := "Something went wrong. Please try again."

  /** `error.response?.data?.message`. */
  function ServerMessage(e: HttpError): Option<string> {
    if e.response.Some? then e.response.value.message else None
  }

  function Status(e: HttpError): Option<int> {
    if e.response.Some? then Some(e.response.value.status) else None
  }

  predicate IsUnauthorized(e: HttpError) {
    Status(e) == Some(401)
  }

  /** The friendly message: the server's message when there is one, else the
      "not reachable" text for a network error, else the generic text. */
  function FriendlyMessage(e: HttpError): (m: string)
    ensures JsText.Truthy(ServerMessage(e)) ==> m == ServerMessage(e).value
    ensures !JsText.Truthy(ServerMessage(e)) && e.code == "ERR_NETWORK" ==> m == NetworkText
    ensures !JsText.Truthy(ServerMessage(e)) && e.code != "ERR_NETWORK" ==> m == GenericText
  {
    if JsText.Truthy(ServerMessage(e)) then ServerMessage(e).value
    else if e.code == "ERR_NETWORK" then NetworkText
    else GenericText
  }

  /** The message shown is never empty: a blank server message falls through
      to one of the two fixed texts. */
  lemma FriendlyMessageNotEmpty(e: HttpError)
    ensures FriendlyMessage(e) != ""
    ensures FriendlyMessage(e) in {NetworkText, GenericText} || FriendlyMessage(e) == ServerMessage(e).value
  {
  }

  /** The response interceptor's error path. */
  method HandleError(store: Session.Storage, e: HttpError) returns (r: Rejection)
    modifies store
    ensures IsUnauthorized(e) ==> r == Original(e) && store.items == old(store.items) - {Session.AccessTokenKey, Session.UserKey}
    ensures !IsUnauthorized(e) ==> r == Friendly(FriendlyMessage(e), e.response, Status(e)) && store.items == old(store.items)
  {
    if IsUnauthorized(e) {
      store.ClearSession();
      return Original(e);
    }
    r := Friendly(FriendlyMessage(e), e.response, Status(e));
  }

  /** The login or register form's fields (a missing form has none). */
  datatype Credentials = Credentials(email: Option<string>, password: Option<string>, username: Option<string>)

  /** Demo mode needs an email and a password, both non-empty. */
  predicate DemoCredentials(c: Credentials) {
    JsText.Truthy(c.email) && JsText.Truthy(c.password)
  }

  /** `email.split('@')[0]`: the text before the first `@`, all of it when there is none. */
  function LocalPart(email: string): (name: string)
    ensures '@' !in name && JsText.StartsWith(email, name)
    ensures '@' in email ==> |name| < |email| && email[|name|] == '@'
    ensures '@' !in email ==> name == email
  {
    JsText.SplitPiecesHaveNoSeparator(email, '@');
    JsText.Split(email, '@')[0]
  }

  /** The demo session's user: id 1, the supplied username if any, else the
      local part of the email. */
  function DemoUser(email: string, username: Option<string>): Session.User {
    Session.User(1, if JsText.Truthy(username) then username.value else LocalPart(email), email)
  }

  /** `authAPI.register`: a demo session for an email and password, the backend's
      reply (stored when it has a token) otherwise. */
  method Register(store: Session.Storage, c: Credentials, backend: Session.AuthReply) returns (data: Session.AuthReply)
    modifies store
    ensures DemoCredentials(c) ==>
              && data == Session.AuthReply(Some(DemoToken), Some(DemoUser(c.email.value, c.username)))
              && store.items == old(store.items)[Session.AccessTokenKey := DemoToken][Session.UserKey := Session.UserJson(data.user)]
    ensures !DemoCredentials(c) ==> data == backend
    ensures !DemoCredentials(c) && JsText.Truthy(backend.token) ==>
              store.items == old(store.items)[Session.AccessTokenKey := backend.token.value][Session.UserKey := Session.UserJson(backend.user)]
    ensures !DemoCredentials(c) && !JsText.Truthy(backend.token) ==> store.items == old(store.items)
  {
    if DemoCredentials(c) {
      var user := DemoUser(c.email.value, c.username);
      data := Session.AuthReply(Some(DemoToken), Some(user));
      store.StoreSession(DemoToken, Some(user));
      return;
    }
    data := backend;
    store.StoreReply(data);
  }

  /** `authAPI.login`: as `register`, but the username always comes from the email. */
  method Login(store: Session.Storage, c: Credentials, backend: Session.AuthReply) returns (data: Session.AuthReply)
    modifies store
    ensures DemoCredentials(c) ==>
              && data == Session.AuthReply(Some(DemoToken), Some(DemoUser(c.email.value, None)))
              && store.items == old(store.items)[Session.AccessTokenKey := DemoToken][Session.UserKey := Session.UserJson(data.user)]
    ensures !DemoCredentials(c) ==> data == backend
    ensures !DemoCredentials(c) && JsText.Truthy(backend.token) ==>
              store.items == old(store.items)[Session.AccessTokenKey := backend.token.value][Session.UserKey := Session.UserJson(backend.user)]
    ensures !DemoCredentials(c) && !JsText.Truthy(backend.token) ==> store.items == old(store.items)
  {
    if DemoCredentials(c) {
      var user := DemoUser(c.email.value, None);
      data := Session.AuthReply(Some(DemoToken), Some(user));
      store.StoreSession(DemoToken, Some(user));
      return;
    }
    data := backend;
    store.StoreReply(data);
  }

  /** The token a demo login stores switches demo mode on and is never sent. */
  lemma DemoTokenStaysLocal()
    ensures InDemoMode(Some(DemoToken))
    ensures AuthorizationHeader(Some(DemoToken)).None?
  {
    assert DemoToken[..|DemoPrefix|] == DemoPrefix;
  }

  /** The demo user's name is the email's text before `@` unless one was given. */
  lemma DemoUserName(email: string, username: Option<string>)
    ensures JsText.Truthy(username) ==> DemoUser(email, username).username == username.value
    ensures !JsText.Truthy(username) ==> '@' !in DemoUser(email, username).username
    ensures !JsText.Truthy(username) ==> JsText.StartsWith(email, DemoUser(email, username).username)
    ensures !JsText.Truthy(username) && '@' in email ==> email[|DemoUser(email, username).username|] == '@'
    ensures DemoUser(email, username).email == email && DemoUser(email, username).id == 1
  {
  }

  /** The fields a category form sends. */
  datatype CategoryInput = CategoryInput(name: string, description: Option<string>, kind: Option<string>)

  /** A category as the client receives it (`kind` is its `type`; `id` is NaN, `None`,
      when `parseInt` fails). */
  datatype ClientCategory = ClientCategory(id: Option<int>, name: string, description: string, kind: string)

  /** `categoryData.description || ''` and `categoryData.type || 'expense'`. */
  function DemoCategoryFields(id: Option<int>, input: CategoryInput): (c: ClientCategory)
    ensures c.id == id && c.name == input.name
    ensures c.description == (if JsText.Truthy(input.description) then input.description.value else "")
    ensures c.kind == (if JsText.Truthy(input.kind) then input.kind.value else "expense")
  {
    ClientCategory(
      id, input.name,
      if JsText.Truthy(input.description) then input.description.value else "",
      if JsText.Truthy(input.kind) then input.kind.value else "expense")
  }

  /** Demo `categoriesAPI.create`: the record gets the clock's `Date.now()` as id. */
  function DemoCreateCategory(now: int, input: CategoryInput): ClientCategory {
    DemoCategoryFields(Some(now), input)
  }

  /** Demo `categoriesAPI.update`: the record echoes `parseInt(id)`. */
  function DemoUpdateCategory(id: string, input: CategoryInput): ClientCategory {
    DemoCategoryFields(JsNumber.ParseInt(id), input)
  }

  /** A demo update of a category with an integer id keeps that id, and
      otherwise agrees with what a demo create of the same input returns. */
  lemma DemoCategoryUpdateMatchesCreate(id: int, now: int, input: CategoryInput)
    ensures DemoUpdateCategory(JsNumber.IntToString(id), input) == DemoCreateCategory(now, input).(id := Some(id))
  {
    JsNumber.ParseIntString(id);
  }

  /** The fields a transaction form sends (`kind` is its `type`). */
  datatype TransactionInput = TransactionInput(
    amount: JsNumber.JsValue, description: Option<string>, date: string, kind: string, categoryId: JsNumber.JsValue)

  /** A transaction as the demo mode returns it: `categoryId` and `categoryName`
      are `None` for JSON `null`, `amount` is `None` for NaN. */
  datatype ClientTransaction = ClientTransaction(
    id: Option<int>, amount: Option<real>, description: string, date: string, kind: string,
    categoryId: Option<JsNumber.JsValue>, categoryName: Option<string>, createdAt: string)

  /** The record demo create and update build; `createdAt` is the clock's ISO text. */
  function DemoTransactionFields(id: Option<int>, createdAt: string, input: TransactionInput): (t: ClientTransaction)
    ensures t.id == id && t.createdAt == createdAt
    ensures t.amount == JsNumber.ParseFloatValue(input.amount)
    ensures t.description == (if JsText.Truthy(input.description) then input.description.value else "")
    ensures t.date == input.date && t.kind == input.kind
    ensures JsNumber.Truthy(input.categoryId) ==> t.categoryId == Some(input.categoryId)
    ensures !JsNumber.Truthy(input.categoryId) ==> t.categoryId.None?
    ensures t.categoryName.None?
  {
    ClientTransaction(
      id, JsNumber.ParseFloatValue(input.amount),
      if JsText.Truthy(input.description) then input.description.value else "",
      input.date, input.kind,
      if JsNumber.Truthy(input.categoryId) then Some(input.categoryId) else None,
      None, createdAt)
  }

  function DemoCreateTransaction(now: int, createdAt: string, input: TransactionInput): ClientTransaction {
    DemoTransactionFields(Some(now), createdAt, input)
  }

  function DemoUpdateTransaction(id: string, createdAt: string, input: TransactionInput): ClientTransaction {
    DemoTransactionFields(JsNumber.ParseInt(id), createdAt, input)
  }

  /** A demo update of a transaction with an integer id keeps that id, and
      otherwise agrees with a demo create at the same instant. */
  lemma DemoTransactionUpdateMatchesCreate(id: int, now: int, createdAt: string, input: TransactionInput)
    ensures DemoUpdateTransaction(JsNumber.IntToString(id), createdAt, input)
            == DemoCreateTransaction(now, createdAt, input).(id := Some(id))
  {
    JsNumber.ParseIntString(id);
  }

  /** An amount typed as decimal digits arrives as that number. */
  lemma DemoAmountReadsBack(n: int, now: int, createdAt: string, input: TransactionInput)
    requires input.amount == JsNumber.Text(JsNumber.IntToString(n))
    ensures DemoCreateTransaction(now, createdAt, input).amount == Some(n as real)
  {
    JsNumber.ParseFloatIntString(n);
  }

  /** Where an endpoint's answer comes from: built locally, or the backend's
      reply to a request sent with the given `Authorization` header. */
  datatype Outcome<T> = Local(value: T) | Sent(header: Option<string>, value: T)

  /** The path every demo-capable endpoint takes for the stored token
      (`localStorage.getItem('accessToken')`): its local answer in demo mode,
      otherwise a request through the interceptor, which adds the header. */
  function Answer<T>(token: Option<string>, demo: T, backend: T): (r: Outcome<T>)
    ensures r.Local? <==> InDemoMode(token)
    ensures r.Local? ==> r.value == demo
    ensures r.Sent? ==> r.value == backend
    ensures r.Sent? && JsText.Truthy(token) ==> r.header == Some("Bearer " + token.value)
    ensures r.Sent? && !JsText.Truthy(token) ==> r.header.None?
  {
    if InDemoMode(token) then Local(demo) else Sent(AuthorizationHeader(token), backend)
  }

  /** `categoriesAPI.create`. */
  function CreateCategory(token: Option<string>, now: int, input: CategoryInput, backend: ClientCategory)
    : Outcome<ClientCategory>
  {
    Answer(token, DemoCreateCategory(now, input), backend)
  }

  /** `categoriesAPI.update`. */
  function UpdateCategory(token: Option<string>, id: string, input: CategoryInput, backend: ClientCategory)
    : Outcome<ClientCategory>
  {
    Answer(token, DemoUpdateCategory(id, input), backend)
  }

  /** `transactionsAPI.create`; `createdAt` is `new Date().toISOString()`. */
  function CreateTransaction(token: Option<string>, now: int, createdAt: string, input: TransactionInput,
                             backend: ClientTransaction): Outcome<ClientTransaction>
  {
    Answer(token, DemoCreateTransaction(now, createdAt, input), backend)
  }

  /** `transactionsAPI.update`. */
  function UpdateTransaction(token: Option<string>, id: string, createdAt: string, input: TransactionInput,
                             backend: ClientTransaction): Outcome<ClientTransaction>
  {
    Answer(token, DemoUpdateTransaction(id, createdAt, input), backend)
  }

  /** `categoriesAPI.delete` and `transactionsAPI.delete`: nothing is returned
      either way, and demo mode does nothing. */
  function Delete(token: Option<string>): Outcome<()> {
    Answer(token, (), ())
  }

  /** After a demo login every write endpoint answers with the record it
      builds locally and sends no request. */
  lemma DemoSessionStaysLocal(now: int, id: string, createdAt: string, ci: CategoryInput, ti: TransactionInput,
                              bc: ClientCategory, bt: ClientTransaction)
    ensures CreateCategory(Some(DemoToken), now, ci, bc) == Local(DemoCreateCategory(now, ci))
    ensures UpdateCategory(Some(DemoToken), id, ci, bc) == Local(DemoUpdateCategory(id, ci))
    ensures CreateTransaction(Some(DemoToken), now, createdAt, ti, bt) == Local(DemoCreateTransaction(now, createdAt, ti))
    ensures UpdateTransaction(Some(DemoToken), id, createdAt, ti, bt) == Local(DemoUpdateTransaction(id, createdAt, ti))
    ensures Delete(Some(DemoToken)).Local?
  {
    DemoTokenStaysLocal();
  }

  /** With a backend token every write endpoint sends its request carrying
      `Bearer <token>` and returns the backend's reply. */
  lemma BackendSessionSendsToken(token: string, now: int, id: string, createdAt: string, ci: CategoryInput,
                                 ti: TransactionInput, bc: ClientCategory, bt: ClientTransaction)
    requires token != "" && !JsText.StartsWith(token, DemoPrefix)
    ensures CreateCategory(Some(token), now, ci, bc) == Sent(Some("Bearer " + token), bc)
    ensures UpdateCategory(Some(token), id, ci, bc) == Sent(Some("Bearer " + token), bc)
    ensures CreateTransaction(Some(token), now, createdAt, ti, bt) == Sent(Some("Bearer " + token), bt)
    ensures UpdateTransaction(Some(token), id, createdAt, ti, bt) == Sent(Some("Bearer " + token), bt)
    ensures Delete(Some(token)) == Sent(Some("Bearer " + token), ())
  {
  }

  /** In demo mode, updating a category or transaction under the decimal text
      of an integer id echoes that id and otherwise returns what a create of
      the same input would. */
  lemma DemoUpdateEchoesCreate(token: Option<string>, id: int, now: int, createdAt: string,
                               ci: CategoryInput, ti: TransactionInput, bc: ClientCategory, bt: ClientTransaction)
    requires InDemoMode(token)
    ensures UpdateCategory(token, JsNumber.IntToString(id), ci, bc).value
            == CreateCategory(token, now, ci, bc).value.(id := Some(id))
    ensures UpdateTransaction(token, JsNumber.IntToString(id), createdAt, ti, bt).value
            == CreateTransaction(token, now, createdAt, ti, bt).value.(id := Some(id))
  {
    DemoCategoryUpdateMatchesCreate(id, now, ci);
    DemoTransactionUpdateMatchesCreate(id, now, createdAt, ti);
  }
}
