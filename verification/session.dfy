/**
 * The browser's `localStorage` as both API clients use it (the `api.js` of
 * each front end): a key-value store of
 * text holding the session under the keys `accessToken` and `user`, and the
 * session operations the two clients share: storing a login reply, logout,
 * the 401 clean-up and `isAuthenticated`.
 */
module Session {
  import opened Wrappers
  import JsNumber
  import JsText

  const AccessTokenKey := "accessToken"
  const UserKey := "user"

  /** The user object a login reply carries. */
  datatype User = User(id: int, username: string, email: string)

  /** The reply of `/auth/login` or `/auth/register`: a token and a user, either
      possibly missing. */
  datatype AuthReply = AuthReply(token: Option<string>, user: Option<User>)

  function HexDigit(d: nat): char
    requires d < 16
  {
    "0123456789abcdef"[d]
  }

  /** How `JSON.stringify` writes one character inside a string literal. */
  function JsonChar(c: char): string {
    if c == '"' then "\\\""
    else if c == '\\' then "\\\\"
    else if c == '\U{0008}' then "\\b"
    else if c == '\t' then "\\t"
    else if c == '\n' then "\\n"
    else if c == '\U{000C}' then "\\f"
    else if c == '\r' then "\\r"
    else if (c as int) < 0x20 then "\\u00" + [HexDigit(c as int / 16), HexDigit(c as int % 16)]
    else [c]
  }

  function JsonChars(s: string): string {
    if s == [] then "" else JsonChar(s[0]) + JsonChars(s[1..])
  }

  /** `JSON.stringify` of a string. */
  function JsonString(s: string): string {
    "\"" + JsonChars(s) + "\""
  }

  /** `JSON.stringify(user)` as `setItem` stores it; a missing user becomes the
      text `undefined`. */
  function UserJson(user: Option<User>): string {
    match user
    case None => "undefined"
    case Some(u) =>
      "{\"id\":" + JsNumber.IntToString(u.id) + ",\"username\":" + JsonString(u.username)
      + ",\"email\":" + JsonString(u.email) + "}"
  }

  /** A character `JSON.stringify` writes as itself inside a string literal. */
  predicate PlainJsonChar(c: char) {
    c != '"' && c != '\\' && (c as int) >= 0x20
  }

  /** Text without quotes, backslashes or control characters is written
      between quotes as it is. */
  lemma {:induction false} JsonStringPlain(s: string)
    requires forall i :: 0 <= i < |s| ==> PlainJsonChar(s[i])
    ensures JsonString(s) == "\"" + s + "\""
  {
    JsonCharsPlain(s);
  }

  lemma {:induction false} JsonCharsPlain(s: string)
    requires forall i :: 0 <= i < |s| ==> PlainJsonChar(s[i])
    ensures JsonChars(s) == s
  {
    if s != [] {
      JsonCharsPlain(s[1..]);
      assert s == [s[0]] + s[1..];
    }
  }

  /** A user with plain name and email is stored as the familiar JSON object. */
  lemma UserJsonPlain(u: User)
    requires forall i :: 0 <= i < |u.username| ==> PlainJsonChar(u.username[i])
    requires forall i :: 0 <= i < |u.email| ==> PlainJsonChar(u.email[i])
    ensures UserJson(Some(u)) == "{\"id\":" + JsNumber.IntToString(u.id) + ",\"username\":" + "\"" + u.username + "\""
                                 + ",\"email\":" + "\"" + u.email + "\"" + "}"
  {
    JsonStringPlain(u.username);
    JsonStringPlain(u.email);
    GlueQuoted("{\"id\":" + JsNumber.IntToString(u.id) + ",\"username\":", "\"", u.username, ",\"email\":", u.email, "}");
  }

  lemma GlueQuoted(p: string, q: string, a: string, m: string, b: string, z: string)
    ensures p + (q + a + q) + m + (q + b + q) + z == p + q + a + q + m + q + b + q + z
  {
  }

  class Storage {
    var items: map<string, string>

    constructor(initial: map<string, string>)
      ensures items == initial
    {
      items := initial;
    }

    /** `localStorage.getItem(key)`: the text, or `null` (`None`). */
    function GetItem(key: string): (r: Option<string>)
      reads this
      ensures r.Some? <==> key in items
      ensures r.Some? ==> r.value == items[key]
    {
      if key in items then Some(items[key]) else None
    }

    method SetItem(key: string, value: string)
      modifies this
      ensures items == old(items)[key := value]
    {
      items := items[key := value];
    }

    method RemoveItem(key: string)
      modifies this
      ensures items == old(items) - {key}
    {
      items := items - {key};
    }

    /** `isAuthenticated`: `!!localStorage.getItem('accessToken')`. */
    predicate IsAuthenticated()
      reads this
    {
      JsText.Truthy(GetItem(AccessTokenKey))
    }

    /** `logout`, and equally the 401 clean-up: both session keys go, every
        other key stays. */
    method ClearSession()
      modifies this
      ensures items == old(items) - {AccessTokenKey, UserKey}
      ensures !IsAuthenticated() && UserKey !in items
    {
      RemoveItem(AccessTokenKey);
      RemoveItem(UserKey);
    }

    /** Stores a session: the token under `accessToken`, the user's JSON under `user`. */
    method StoreSession(token: string, user: Option<User>)
      modifies this
      ensures items == old(items)[AccessTokenKey := token][UserKey := UserJson(user)]
      ensures IsAuthenticated() <==> token != ""
    {
      SetItem(AccessTokenKey, token);
      SetItem(UserKey, UserJson(user));
    }

    /** The backend path of `login` (and of the demo client's `register`): the
        reply is stored only when it carries a token. */
    method StoreReply(data: AuthReply)
      modifies this
      ensures JsText.Truthy(data.token) ==> items == old(items)[AccessTokenKey := data.token.value][UserKey := UserJson(data.user)]
      ensures !JsText.Truthy(data.token) ==> items == old(items)
      ensures JsText.Truthy(data.token) ==> IsAuthenticated()
    {
      if JsText.Truthy(data.token) {
        StoreSession(data.token.value, data.user);
      }
    }
  }
}
