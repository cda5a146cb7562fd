/**
 * The API client of the offline-first frontend (frontend/src/lib/api.js): every
 * stored token is sent, a 401 ends the session, errors are passed on
 * unchanged, and only `login` writes the session.
 */
module ClientApi {
  import opened Wrappers
  import JsText
  import Session

  /** The request interceptor: `Bearer <token>` whenever a token is stored. */
  function AuthorizationHeader(token: Option<string>): (header: Option<string>)
    ensures header.Some? <==> JsText.Truthy(token)
    ensures header.Some? ==> header.value == "Bearer " + token.value
  {
    if JsText.Truthy(token) then Some("Bearer " + token.value) else None
  }

  /** A request carries a header exactly when the session is authenticated. */
  lemma HeaderIffAuthenticated(store: Session.Storage)
    ensures AuthorizationHeader(store.GetItem(Session.AccessTokenKey)).Some? <==> store.IsAuthenticated()
  {
  }

  /** An axios error, reduced to the response status, if a response arrived. */
  datatype HttpError = HttpError(status: Option<int>, code: string)

  /** The response interceptor's error path: a 401 clears the session, and the
      error is rejected as it came. */
  method HandleError(store: Session.Storage, e: HttpError) returns (rejected: HttpError)
    modifies store
    ensures rejected == e
    ensures e.status == Some(401) ==> store.items == old(store.items) - {Session.AccessTokenKey, Session.UserKey}
    ensures e.status != Some(401) ==> store.items == old(store.items)
  {
    if e.status == Some(401) {
      store.ClearSession();
    }
    rejected := e;
  }

  /** `authAPI.login`: the backend's reply, stored only when it carries a token. */
  method Login(store: Session.Storage, reply: Session.AuthReply) returns (data: Session.AuthReply)
    modifies store
    ensures data == reply
    ensures JsText.Truthy(reply.token) ==>
              store.items == old(store.items)[Session.AccessTokenKey := reply.token.value][Session.UserKey := Session.UserJson(reply.user)]
    ensures !JsText.Truthy(reply.token) ==> store.items == old(store.items)
  {
    store.StoreReply(reply);
    data := reply;
  }

  /** After a login whose reply carries a token, requests carry that token. */
  lemma LoginThenHeader(items: map<string, string>, reply: Session.AuthReply)
    requires JsText.Truthy(reply.token)
    ensures var after := items[Session.AccessTokenKey := reply.token.value][Session.UserKey := Session.UserJson(reply.user)];
            AuthorizationHeader(Some(after[Session.AccessTokenKey])) == Some("Bearer " + reply.token.value)
  {
  }

  /** `authAPI.register`: the backend's reply; nothing is stored. */
  method Register(store: Session.Storage, reply: Session.AuthReply) returns (data: Session.AuthReply)
    ensures data == reply
    ensures store.items == old(store.items)
  {
    data := reply;
  }

  /** `authAPI.logout`. */
  method Logout(store: Session.Storage)
    modifies store
    ensures store.items == old(store.items) - {Session.AccessTokenKey, Session.UserKey}
    ensures !store.IsAuthenticated()
    ensures AuthorizationHeader(store.GetItem(Session.AccessTokenKey)).None?
  {
    store.ClearSession();
  }
}
