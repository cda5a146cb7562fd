/**
 * What the routes hand to MySQL: statement text with `?` placeholders and a
 * list of parameter values bound to them in order. The text is a sequence of
 * pieces, literal text (which carries no `?` of its own) or a placeholder, so
 * that placeholders can be counted.
 */
module Sql {
  import JsText

  /** A parameter value: a number, a text, or JavaScript's NaN (what
      `parseInt` yields for text without digits). */
  datatype Value = Int(i: int) | Text(s: string) | NaN

  datatype Piece = Literal(text: string) | Placeholder

  /** The number of `?` in a statement. */
  function Placeholders(q: seq<Piece>): (n: nat)
    ensures n <= |q|
  {
    if q == [] then 0 else (if q[0].Placeholder? then 1 else 0) + Placeholders(q[1..])
  }

  lemma {:induction false} PlaceholdersAppend(a: seq<Piece>, b: seq<Piece>)
    ensures Placeholders(a + b) == Placeholders(a) + Placeholders(b)
  {
    if a == [] {
      assert a + b == b;
    } else {
      assert (a + b)[1..] == a[1..] + b;
      PlaceholdersAppend(a[1..], b);
    }
  }

  /** `fragments.join(' AND ')`. */
  function JoinAnd(fragments: seq<seq<Piece>>): seq<Piece> {
    if fragments == [] then []
    else if |fragments| == 1 then fragments[0]
    else fragments[0] + [Literal(" AND ")] + JoinAnd(fragments[1..])
  }

  function TotalPlaceholders(fragments: seq<seq<Piece>>): nat {
    if fragments == [] then 0 else Placeholders(fragments[0]) + TotalPlaceholders(fragments[1..])
  }

  /** Joining adds no placeholder: the joined text has those of its fragments. */
  lemma {:induction false} JoinAndPlaceholders(fragments: seq<seq<Piece>>)
    ensures Placeholders(JoinAnd(fragments)) == TotalPlaceholders(fragments)
  {
    if |fragments| > 1 {
      JoinAndPlaceholders(fragments[1..]);
      PlaceholdersAppend(fragments[0] + [Literal(" AND ")], JoinAnd(fragments[1..]));
      PlaceholdersAppend(fragments[0], [Literal(" AND ")]);
    } else if |fragments| == 1 {
      assert fragments[1..] == [];
    }
  }

  lemma {:induction false} TotalPlaceholdersAppend(a: seq<seq<Piece>>, b: seq<seq<Piece>>)
    ensures TotalPlaceholders(a + b) == TotalPlaceholders(a) + TotalPlaceholders(b)
  {
    if a == [] {
      assert a + b == b;
    } else {
      assert (a + b)[1..] == a[1..] + b;
      TotalPlaceholdersAppend(a[1..], b);
    }
  }

  /** The `LIKE` pattern the routes bind for a search text: `%q%`. */
  function ContainsPattern(q: string): string {
    "%" + q + "%"
  }

  /** `s LIKE pattern` for a pattern wrapped in `%`: `s` contains what lies
      between them. Other patterns match only themselves. */
  predicate Like(s: string, pattern: string) {
    if 2 <= |pattern| && pattern[0] == '%' && pattern[|pattern| - 1] == '%'
    then JsText.Contains(s, pattern[1..|pattern| - 1])
    else s == pattern
  }

  /** The bound `%q%` matches exactly the texts that contain `q`. */
  lemma LikeContains(s: string, q: string)
    ensures Like(s, ContainsPattern(q)) <==> JsText.Contains(s, q)
  {
    var p := ContainsPattern(q);
    assert p[1..|p| - 1] == q;
  }
}
