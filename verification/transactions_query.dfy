/**
 * `transactionsAPI.getAll`'s URL (expense-tracker/frontend/src/lib/api.js and the
 * identical code in frontend/src/lib/api.js): up to nine parameters appended to
 * a `URLSearchParams` in a fixed order, each only when truthy and `type` not
 * when it is `all`, then serialised as `application/x-www-form-urlencoded`.
 */
module TransactionsQuery {
  import JsText
  import JsNumber

  /** A value in the `params` object: missing, text, or an integer. */
  datatype ParamValue = Absent | Str(s: string) | Int(n: int)

  predicate Truthy(v: ParamValue) {
    match v
    case Absent => false
    case Str(s) => s != ""
    case Int(n) => n != 0
  }

  /** The text `append` stores: the string itself, or `String(n)`. */
  function Text(v: ParamValue): string {
    match v
    case Absent => "undefined"
    case Str(s) => s
    case Int(n) => JsNumber.IntToString(n)
  }

  datatype ListParams = ListParams(
    q: ParamValue, kind: ParamValue, categoryId: ParamValue, startDate: ParamValue, endDate: ParamValue,
    sortBy: ParamValue, sortOrder: ParamValue, page: ParamValue, limit: ParamValue)

  /** The parameter names in the order they are appended. */
  const Keys: seq<string> :=
    ["q", "type", "category_id", "start_date", "end_date", "sort_by", "sort_order", "page", "limit"]

  /** The value of the `i`-th parameter of `Keys`. */
  function Field(p: ListParams, i: nat): ParamValue
    requires i < 9
  {
    match i
    case 0 => p.q
    case 1 => p.kind
    case 2 => p.categoryId
    case 3 => p.startDate
    case 4 => p.endDate
    case 5 => p.sortBy
    case 6 => p.sortOrder
    case 7 => p.page
    case _ => p.limit
  }

  /** Whether the `i`-th parameter is appended: truthy, and for `type` not `all`. */
  predicate Included(p: ListParams, i: nat)
    requires i < 9
  {
    Truthy(Field(p, i)) && (i != 1 || Field(p, i) != Str("all"))
  }

  /** What the `i`-th `append` contributes: its pair, or nothing. */
  function Appended(p: ListParams, i: nat): seq<(string, string)>
    requires i < 9
  {
    if Included(p, i) then [(Keys[i], Text(Field(p, i)))] else []
  }

  /** The pairs the first `n` `append` calls leave in the parameters. */
  function AppendedUpTo(p: ListParams, n: nat): seq<(string, string)>
    requires n <= 9
  {
    if n == 0 then [] else AppendedUpTo(p, n - 1) + Appended(p, n - 1)
  }

  /** All the pairs `getAll` appends. */
  function Pairs(p: ListParams): seq<(string, string)> {
    AppendedUpTo(p, 9)
  }

  /** The positions in `Keys`, below `n`, of the parameters that are appended. */
  function IncludedUpTo(p: ListParams, n: nat): (r: seq<nat>)
    requires n <= 9
    ensures forall k :: 0 <= k < |r| ==> r[k] < n
  {
    if n == 0 then [] else IncludedUpTo(p, n - 1) + (if Included(p, n - 1) then [n - 1] else [])
  }

  /** The included positions (all below `n`) are increasing, and are exactly
      those whose parameter is appended. */
  lemma {:induction false} IncludedUpToMeaning(p: ListParams, n: nat)
    requires n <= 9
    ensures forall k :: 0 <= k < |IncludedUpTo(p, n)| ==> Included(p, IncludedUpTo(p, n)[k])
    ensures forall k, l :: 0 <= k < l < |IncludedUpTo(p, n)| ==> IncludedUpTo(p, n)[k] < IncludedUpTo(p, n)[l]
    ensures forall j :: 0 <= j < n && Included(p, j) ==> j in IncludedUpTo(p, n)
  {
    if n > 0 {
      IncludedUpToMeaning(p, n - 1);
      var front, r := IncludedUpTo(p, n - 1), IncludedUpTo(p, n);
      assert r == front + (if Included(p, n - 1) then [n - 1] else []);
      forall k | 0 <= k < |r| ensures Included(p, r[k]) {
        if k < |front| {
          assert r[k] == front[k];
        }
      }
      forall k, l | 0 <= k < l < |r| ensures r[k] < r[l] {
        assert r[k] == front[k];
        if l < |front| {
          assert r[l] == front[l];
        }
      }
      forall j | 0 <= j < n && Included(p, j) ensures j in r {
        if j < n - 1 {
          var i :| 0 <= i < |front| && front[i] == j;
          assert r[i] == j;
        } else {
          assert r[|r| - 1] == j;
        }
      }
    }
  }

  /** The `k`-th pair appended is the parameter at the `k`-th included position,
      under its own name and with its text. */
  lemma {:induction false} PairsMeaning(p: ListParams, n: nat)
    requires n <= 9
    ensures |AppendedUpTo(p, n)| == |IncludedUpTo(p, n)|
    ensures forall k :: 0 <= k < |AppendedUpTo(p, n)| ==>
              AppendedUpTo(p, n)[k] == (Keys[IncludedUpTo(p, n)[k]], Text(Field(p, IncludedUpTo(p, n)[k])))
  {
    if n > 0 {
      PairsMeaning(p, n - 1);
      IncludedUpToMeaning(p, n - 1);
    }
  }

  /** The names, one by one. */
  lemma KeysValues()
    ensures Keys[0] == "q" && Keys[1] == "type" && Keys[2] == "category_id" && Keys[3] == "start_date"
    ensures Keys[4] == "end_date" && Keys[5] == "sort_by" && Keys[6] == "sort_order" && Keys[7] == "page"
    ensures Keys[8] == "limit"
  {
  }

  /** No two parameters share a name, so a name in the URL identifies its field. */
  lemma KeysDistinct()
    ensures forall a, b :: 0 <= a < b < 9 ==> Keys[a] != Keys[b]
  {
  }

  /** The `append` calls of `getAll`, one per parameter, in source order. */
  method AppendParams(p: ListParams) returns (pairs: seq<(string, string)>)
    ensures pairs == Pairs(p)
  {
    pairs := [];
    KeysValues();
    if Truthy(p.q) { pairs := pairs + [("q", Text(p.q))]; }
    assert pairs == AppendedUpTo(p, 1);
    if Truthy(p.kind) && p.kind != Str("all") { pairs := pairs + [("type", Text(p.kind))]; }
    assert pairs == AppendedUpTo(p, 2);
    if Truthy(p.categoryId) { pairs := pairs + [("category_id", Text(p.categoryId))]; }
    assert pairs == AppendedUpTo(p, 3);
    if Truthy(p.startDate) { pairs := pairs + [("start_date", Text(p.startDate))]; }
    assert pairs == AppendedUpTo(p, 4);
    if Truthy(p.endDate) { pairs := pairs + [("end_date", Text(p.endDate))]; }
    assert pairs == AppendedUpTo(p, 5);
    if Truthy(p.sortBy) { pairs := pairs + [("sort_by", Text(p.sortBy))]; }
    assert pairs == AppendedUpTo(p, 6);
    if Truthy(p.sortOrder) { pairs := pairs + [("sort_order", Text(p.sortOrder))]; }
    assert pairs == AppendedUpTo(p, 7);
    if Truthy(p.page) { pairs := pairs + [("page", Text(p.page))]; }
    assert pairs == AppendedUpTo(p, 8);
    if Truthy(p.limit) { pairs := pairs + [("limit", Text(p.limit))]; }
    assert pairs == AppendedUpTo(p, 9);
  }

  /** The bytes of the UTF-8 encoding of a character. */
  function Utf8(c: char): (bytes: seq<nat>)
    ensures 1 <= |bytes| <= 4
    ensures forall i :: 0 <= i < |bytes| ==> bytes[i] < 256
    ensures |bytes| > 1 ==> forall i :: 0 <= i < |bytes| ==> bytes[i] >= 128
    ensures |bytes| == 1 <==> c as int < 0x80
    ensures c as int < 0x80 ==> bytes == [c as int]
  {
    var cp := c as int;
    if cp < 0x80 then [cp]
    else if cp < 0x800 then [0xC0 + cp / 64, 0x80 + cp % 64]
    else if cp < 0x10000 then [0xE0 + cp / 4096, 0x80 + (cp / 64) % 64, 0x80 + cp % 64]
    else [0xF0 + cp / 262144, 0x80 + (cp / 4096) % 64, 0x80 + (cp / 64) % 64, 0x80 + cp % 64]
  }

  /** The bytes the form-urlencoded serialiser leaves as they are. */
  predicate Unreserved(b: nat) {
    b == 0x2A || b == 0x2D || b == 0x2E || 0x30 <= b <= 0x39 || 0x41 <= b <= 0x5A || b == 0x5F || 0x61 <= b <= 0x7A
  }

  function HexDigit(d: nat): char
    requires d < 16
  {
    "0123456789ABCDEF"[d]
  }

  function EncodeByte(b: nat): (s: string)
    requires b < 256
    ensures '?' !in s && '&' !in s && '=' !in s && s != ""
  {
    if Unreserved(b) then [b as char]
    else if b == 0x20 then "+"
    else ['%', HexDigit(b / 16), HexDigit(b % 16)]
  }

  function EncodeBytes(bytes: seq<nat>): (s: string)
    requires forall i :: 0 <= i < |bytes| ==> bytes[i] < 256
    ensures '?' !in s && '&' !in s && '=' !in s
  {
    if bytes == [] then "" else EncodeByte(bytes[0]) + EncodeBytes(bytes[1..])
  }

  /** The serialiser applied to one name or value. */
  function Encode(s: string): (r: string)
    ensures '?' !in r && '&' !in r && '=' !in r
  {
    if s == [] then "" else EncodeBytes(Utf8(s[0])) + Encode(s[1..])
  }

  /** A character the serialiser passes through unchanged. */
  predicate PlainChar(c: char) {
    c as int < 0x80 && Unreserved(c as int)
  }

  /** Text made of letters, digits and `*-._` is serialised as it is. */
  lemma {:induction false} EncodePlain(s: string)
    requires forall i :: 0 <= i < |s| ==> PlainChar(s[i])
    ensures Encode(s) == s
  {
    if s != [] {
      EncodePlain(s[1..]);
      assert EncodeBytes(Utf8(s[0])) == [s[0]] by {
        assert Utf8(s[0]) == [s[0] as int];
        assert EncodeBytes([s[0] as int]) == EncodeByte(s[0] as int) + EncodeBytes([]);
      }
    }
  }

  /** `URLSearchParams.toString()`: `name=value` pairs joined by `&`. */
  function Serialize(pairs: seq<(string, string)>): (qs: string)
    ensures '?' !in qs
    ensures qs == "" <==> pairs == []
  {
    if pairs == [] then ""
    else
      var first := Encode(pairs[0].0) + "=" + Encode(pairs[0].1);
      assert first[|Encode(pairs[0].0)|] == '=';
      if |pairs| == 1 then first else first + "&" + Serialize(pairs[1..])
  }

  /** `/transactions`, followed by `?` and the query string when there is one. */
  function Url(pairs: seq<(string, string)>): string {
    var qs := Serialize(pairs);
    "/transactions" + (if qs != "" then "?" + qs else "")
  }

  /** The URL carries no `?` when no parameter was appended, and exactly one,
      introducing the query string, otherwise. */
  lemma UrlShape(pairs: seq<(string, string)>)
    ensures pairs == [] ==> Url(pairs) == "/transactions"
    ensures pairs != [] ==> Url(pairs) == "/transactions?" + Serialize(pairs)
    ensures JsText.Count('?', Url(pairs)) == if pairs == [] then 0 else 1
  {
    if pairs == [] {
      PathCount();
    } else {
      QuestionMarkOnce(Serialize(pairs));
    }
  }

  lemma PathCount()
    ensures JsText.Count('?', "/transactions") == 0
  {
  }

  lemma QuestionMarkOnce(qs: string)
    requires '?' !in qs
    ensures JsText.Count('?', "/transactions" + ("?" + qs)) == 1
  {
    JsText.CountAppend('?', "?", qs);
    JsText.CountAppend('?', "/transactions", "?" + qs);
    PathCount();
  }

  /** Splitting the query string at `&` yields one piece per pair. */
  lemma {:induction false} SerializeSplits(pairs: seq<(string, string)>)
    requires pairs != []
    ensures |JsText.Split(Serialize(pairs), '&')| == |pairs|
  {
    var qs := Serialize(pairs);
    JsText.SplitLength(qs, '&');
    SerializeAmpersands(pairs);
  }

  lemma {:induction false} SerializeAmpersands(pairs: seq<(string, string)>)
    requires pairs != []
    ensures JsText.Count('&', Serialize(pairs)) == |pairs| - 1
  {
    var first := Encode(pairs[0].0) + "=" + Encode(pairs[0].1);
    JsText.CountAppend('&', Encode(pairs[0].0), "=");
    JsText.CountAppend('&', Encode(pairs[0].0) + "=", Encode(pairs[0].1));
    if |pairs| > 1 {
      SerializeAmpersands(pairs[1..]);
      JsText.CountAppend('&', first, "&");
      JsText.CountAppend('&', first + "&", Serialize(pairs[1..]));
    }
  }

  /** `transactionsAPI.getAll(params)`'s request URL. */
  method GetAllUrl(p: ListParams) returns (url: string)
    ensures url == Url(Pairs(p))
  {
    var pairs := AppendParams(p);
    var queryString := Serialize(pairs);
    url := "/transactions" + (if queryString != "" then "?" + queryString else "");
  }
}
