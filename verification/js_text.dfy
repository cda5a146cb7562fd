/**
 * The JavaScript string built-ins the application relies on, over `seq<char>`:
 * `trim`, `toLowerCase`, `includes`, `startsWith` and `split` with a one-character
 * separator.
 */
module JsText {
  import opened Wrappers

  /** JavaScript truthiness of a text that may be missing: present and non-empty. */
  predicate Truthy(text: Option<string>) {
    text.Some? && text.value != ""
  }

  /** The characters `String.prototype.trim` removes: ECMAScript WhiteSpace
      (tab, vertical tab, form feed, space, no-break space, BOM and the Zs
      category) and LineTerminator (LF, CR, LS, PS). */
  predicate IsSpace(c: char) {
    c == ' ' || c == '\t' || c == '\n' || c == '\r' || c == '\U{000B}' || c == '\U{000C}'
    || c == '\U{00A0}' || c == '\U{1680}' || ('\U{2000}' <= c <= '\U{200A}')
    || c == '\U{2028}' || c == '\U{2029}' || c == '\U{202F}' || c == '\U{205F}'
    || c == '\U{3000}' || c == '\U{FEFF}'
  }

  predicate IsBlank(s: string) {
    forall i :: 0 <= i < |s| ==> IsSpace(s[i])
  }

  /** How much white space `s` starts with. */
  function LeadingSpaces(s: string): (n: nat)
    ensures n <= |s| && IsBlank(s[..n])
    ensures n == |s| || !IsSpace(s[n])
  {
    if s == [] || !IsSpace(s[0]) then 0
    else
      var n := LeadingSpaces(s[1..]);
      assert s[1..][..n] == s[1..n + 1];
      n + 1
  }

  /** `s.trimStart()`: drops the leading white space. */
  function TrimStart(s: string): (r: string)
    ensures |r| <= |s| && r == s[|s| - |r|..]
    ensures r == [] || !IsSpace(r[0])
    ensures IsBlank(s[..|s| - |r|])
  {
    s[LeadingSpaces(s)..]
  }

  /** How much white space `s` ends with. */
  function TrailingSpaces(s: string): (n: nat)
    ensures n <= |s| && IsBlank(s[|s| - n..])
    ensures n == |s| || !IsSpace(s[|s| - n - 1])
  {
    if s == [] || !IsSpace(s[|s| - 1]) then 0
    else
      var n := TrailingSpaces(s[..|s| - 1]);
      assert s[..|s| - 1][|s| - 1 - n..] == s[|s| - 1 - n..|s| - 1];
      n + 1
  }

  /** `s.trimEnd()`: drops the trailing white space. */
  function TrimEnd(s: string): (r: string)
    ensures |r| <= |s| && r == s[..|r|]
    ensures r == [] || !IsSpace(r[|r| - 1])
    ensures IsBlank(s[|r|..])
  {
    s[..|s| - TrailingSpaces(s)]
  }

  /** `s.trim()`: `s` without its leading and its trailing white space. */
  function Trim(s: string): (r: string)
    ensures r == [] || (!IsSpace(r[0]) && !IsSpace(r[|r| - 1]))
  {
    TrimEnd(TrimStart(s))
  }

  /** `s.trim()` is the middle of `s`: what it cuts off on either side is
      white space, and it starts and ends with a character that is not. */
  lemma TrimMeaning(s: string)
    ensures exists i, j :: 0 <= i <= j <= |s| && Trim(s) == s[i..j] && IsBlank(s[..i]) && IsBlank(s[j..])
  {
    var t := TrimStart(s);
    var i := |s| - |t|;
    var r := Trim(s);
    assert t == s[i..];
    assert r == t[..|r|] && IsBlank(t[|r|..]);
    assert r == s[i..i + |r|];
    assert t[|r|..] == s[i + |r|..];
  }

  /** Trimming leaves nothing exactly when `s` is blank. */
  lemma TrimEmptyIffBlank(s: string)
    ensures Trim(s) == [] <==> IsBlank(s)
  {
    TrimmedEmptyIffBlank(s, TrimStart(s), Trim(s));
  }

  /** What is left after trimming both ends is empty exactly when `s` is blank. */
  lemma TrimmedEmptyIffBlank(s: string, t: string, r: string)
    requires |t| <= |s| && t == s[|s| - |t|..] && IsBlank(s[..|s| - |t|]) && (t == [] || !IsSpace(t[0]))
    requires |r| <= |t| && r == t[..|r|] && IsBlank(t[|r|..])
    ensures r == [] <==> IsBlank(s)
  {
    var i := |s| - |t|;
    if r == [] {
      assert s == s[..i];
    } else {
      assert s[i] == t[0];
    }
  }

  /** `c.toLowerCase()` for one UTF-16 code unit of the Latin blocks the
      app's users type (Basic Latin, Latin-1 Supplement, Latin Extended-A):
      each capital goes to its small letter, `İ` to `i` followed by the
      combining dot above, and everything else is left as it is. */
  function LowerChar(c: char): (r: seq<char>)
    ensures c == '\U{130}' ==> r == ['i', '\U{307}']
    ensures c != '\U{130}' ==> |r| == 1
    ensures 'A' <= c <= 'Z' ==> r == [(c as int + 32) as char]
    ensures c as int < 0x80 && !('A' <= c <= 'Z') ==> r == [c]
    ensures 0x180 <= c as int ==> r == [c]
  {
    var n := c as int;
    if 'A' <= c <= 'Z' || (0xC0 <= n <= 0xDE && n != 0xD7) then [(n + 32) as char]
    else if n == 0x130 then ['i', '\U{307}']
    else if n == 0x178 then ['\U{FF}']
    else if (0x100 <= n <= 0x137 || 0x14A <= n <= 0x177) && n % 2 == 0 then [(n + 1) as char]
    else if (0x139 <= n <= 0x148 || 0x179 <= n <= 0x17E) && n % 2 == 1 then [(n + 1) as char]
    else [c]
  }

  /** `s.toLowerCase()`, code unit by code unit. */
  function ToLower(s: string): (r: string)
    ensures |r| >= |s|
  {
    if s == [] then [] else LowerChar(s[0]) + ToLower(s[1..])
  }

  /** Lower-casing lengthens a string by one code unit for each `İ`. */
  lemma {:induction false} ToLowerLength(s: string)
    ensures |ToLower(s)| == |s| + multiset(s)['\U{130}']
  {
    if s != [] {
      assert s == [s[0]] + s[1..];
      ToLowerLength(s[1..]);
    }
  }

  /** Without an `İ`, lower-casing replaces each code unit by its small
      letter in place. */
  lemma {:induction false} ToLowerInPlace(s: string)
    requires '\U{130}' !in s
    ensures |ToLower(s)| == |s|
    ensures forall i :: 0 <= i < |s| ==> ToLower(s)[i] == LowerChar(s[i])[0]
  {
    if s != [] {
      assert s == [s[0]] + s[1..];
      ToLowerInPlace(s[1..]);
      var r := ToLower(s);
      assert r == LowerChar(s[0]) + ToLower(s[1..]);
      forall i | 0 <= i < |s| ensures r[i] == LowerChar(s[i])[0] {
        if i > 0 {
          assert r[i] == ToLower(s[1..])[i - 1];
        }
      }
    }
  }

  /** Lower-casing a concatenation lower-cases each part. */
  lemma {:induction false} ToLowerAppend(a: string, b: string)
    ensures ToLower(a + b) == ToLower(a) + ToLower(b)
  {
    if a == [] {
      assert a + b == b;
    } else {
      assert (a + b)[1..] == a[1..] + b;
      ToLowerAppend(a[1..], b);
    }
  }

  lemma ToLowerSingle(c: char)
    ensures ToLower([c]) == LowerChar(c)
  {
    assert [c][1..] == [];
  }

  /** The lower-case form of a character is already lower case. */
  lemma LowerCharFixed(c: char)
    ensures ToLower(LowerChar(c)) == LowerChar(c)
  {
    var n := c as int;
    if 'A' <= c <= 'Z' || (0xC0 <= n <= 0xDE && n != 0xD7) {
      var d := (n + 32) as char;
      assert LowerChar(c) == [d];
      assert 'a' <= d <= 'z' || 0xE0 <= d as int <= 0xFE;
      assert LowerChar(d) == [d];
      ToLowerSingle(d);
    } else if n == 0x130 {
      assert LowerChar(c) == ['i', '\U{307}'];
      assert ['i', '\U{307}'][1..] == ['\U{307}'];
      assert ToLower(['i', '\U{307}']) == LowerChar('i') + ToLower(['\U{307}']);
      ToLowerSingle('\U{307}');
    } else if n == 0x178 {
      assert LowerChar(c) == ['\U{FF}'];
      ToLowerSingle('\U{FF}');
    } else if (0x100 <= n <= 0x137 || 0x14A <= n <= 0x177) && n % 2 == 0 {
      var d := (n + 1) as char;
      assert LowerChar(c) == [d];
      assert LowerChar(d) == [d];
      ToLowerSingle(d);
    } else if (0x139 <= n <= 0x148 || 0x179 <= n <= 0x17E) && n % 2 == 1 {
      var d := (n + 1) as char;
      assert LowerChar(c) == [d];
      assert LowerChar(d) == [d];
      ToLowerSingle(d);
    } else {
      assert LowerChar(c) == [c];
      ToLowerSingle(c);
    }
  }

  /** Lower-casing a string twice changes nothing more. */
  lemma {:induction false} ToLowerIdempotent(s: string)
    ensures ToLower(ToLower(s)) == ToLower(s)
  {
    if s != [] {
      ToLowerAppend(LowerChar(s[0]), ToLower(s[1..]));
      LowerCharFixed(s[0]);
      ToLowerIdempotent(s[1..]);
    }
  }

  /** Trimming a single character that is not white space keeps it. */
  lemma TrimSolid(c: char)
    requires !IsSpace(c)
    ensures Trim([c]) == [c]
  {
    assert LeadingSpaces([c]) == 0;
    assert TrimStart([c]) == [c];
    assert TrailingSpaces([c]) == 0;
  }

  /** A lower-cased string starts with its first character lower-cased. */
  lemma FoldedPrefix(s: string)
    requires s != []
    ensures OccursAt(ToLower(s), LowerChar(s[0]), 0)
  {
    assert ToLower(s) == LowerChar(s[0]) + ToLower(s[1..]);
  }

  /** The Albanian capitals with diacritics fold to their small letters:
      a search for `Ë` finds a text that starts with `ë`, as `ëmbëlsira` does. */
  lemma AlbanianCapitals(text: string)
    requires text != [] && text[0] == 'ë'
    ensures ToLower("Ë") == "ë" && ToLower("Ç") == "ç"
    ensures Contains(ToLower(text), ToLower("Ë"))
  {
    assert LowerChar('Ë') == "ë" && LowerChar('Ç') == "ç";
    assert ToLower("Ë") == LowerChar('Ë') + ToLower([]);
    assert ToLower("Ç") == LowerChar('Ç') + ToLower([]);
    assert LowerChar('ë') == "ë";
    FoldedPrefix(text);
  }

  /** `s.startsWith(p)`. */
  predicate StartsWith(s: string, p: string) {
    |p| <= |s| && s[..|p|] == p
  }

  /** `sub` occurs in `s` starting at position `i`. */
  predicate OccursAt(s: string, sub: string, i: int) {
    0 <= i <= |s| - |sub| && s[i..i + |sub|] == sub
  }

  /** `s.includes(sub)`: whether `sub` occurs at some position of `s`. */
  predicate Contains(s: string, sub: string) {
    exists i :: 0 <= i <= |s| - |sub| && OccursAt(s, sub, i)
  }

  /** The search `includes` performs: try each position from the left. */
  function IndexOf(s: string, sub: string): (r: int)
    ensures r == -1 || OccursAt(s, sub, r)
    ensures r >= 0 ==> forall j :: 0 <= j < r ==> !OccursAt(s, sub, j)
    ensures r == -1 <==> !Contains(s, sub)
    decreases |s|
  {
    if |s| < |sub| then -1
    else if s[..|sub|] == sub then
      assert OccursAt(s, sub, 0);
      0
    else
      var k := IndexOf(s[1..], sub);
      assert forall j :: 1 <= j <= |s| - |sub| ==> (OccursAt(s, sub, j) <==> OccursAt(s[1..], sub, j - 1));
      if k == -1 then
        -1
      else
        assert OccursAt(s, sub, k + 1);
        k + 1
  }

  /** Every string contains the empty string. */
  lemma ContainsEmpty(s: string)
    ensures Contains(s, "")
  {
    assert OccursAt(s, "", 0);
  }

  /** How often `c` occurs in `s`. */
  function Count(c: char, s: string): (n: nat)
    ensures n <= |s|
    ensures n == 0 <==> c !in s
  {
    if s == [] then 0 else (if s[0] == c then 1 else 0) + Count(c, s[1..])
  }

  lemma {:induction false} CountAppend(c: char, a: string, b: string)
    ensures Count(c, a + b) == Count(c, a) + Count(c, b)
  {
    if a != [] {
      assert (a + b)[1..] == a[1..] + b;
      CountAppend(c, a[1..], b);
    } else {
      assert a + b == b;
    }
  }

  /** `s.split(sep)` for a one-character separator: the maximal pieces between
      separators, `[s]` when `sep` does not occur. */
  function Split(s: string, sep: char): (pieces: seq<string>)
    ensures |pieces| >= 1
    decreases |s|
  {
    var k := FirstIndex(s, sep);
    if k == |s| then [s]
    else [s[..k]] + Split(s[k + 1..], sep)
  }

  /** The position of the first occurrence of `c` in `s`, or `|s|` when there
      is none. */
  function FirstIndex(s: string, c: char): (k: nat)
    ensures k <= |s|
    ensures k < |s| ==> s[k] == c
  {
    IndexFrom(s, c, 0)
  }

  /** The search from position `i` on. */
  function IndexFrom(s: string, c: char, i: nat): (k: nat)
    requires i <= |s|
    ensures i <= k <= |s|
    ensures k < |s| ==> s[k] == c
    decreases |s| - i
  {
    if i == |s| || s[i] == c then i else IndexFrom(s, c, i + 1)
  }

  /** The search passes only over other characters. */
  lemma {:induction false} IndexFromPasses(s: string, c: char, i: nat)
    requires i <= |s|
    ensures forall j :: i <= j < IndexFrom(s, c, i) ==> s[j] != c
    decreases |s| - i
  {
    if i < |s| && s[i] != c {
      IndexFromPasses(s, c, i + 1);
    }
  }

  /** The search stops at the first occurrence from `i` on. */
  lemma {:induction false} IndexFromStops(s: string, c: char, i: nat, k: nat)
    requires i <= k <= |s| && (k < |s| ==> s[k] == c)
    requires forall j :: i <= j < k ==> s[j] != c
    ensures IndexFrom(s, c, i) == k
    decreases k - i
  {
    if i < k {
      IndexFromStops(s, c, i + 1, k);
    }
  }

  /** `c` does not occur before its first occurrence. */
  lemma FirstIndexFirst(s: string, c: char)
    ensures c !in s[..FirstIndex(s, c)]
  {
    IndexFromPasses(s, c, 0);
  }

  /** The first occurrence is the one with none before it. */
  lemma FirstIndexUnique(s: string, c: char, k: nat)
    requires k <= |s| && (k < |s| ==> s[k] == c) && c !in s[..k]
    ensures FirstIndex(s, c) == k
  {
    assert forall j :: 0 <= j < k ==> s[j] == s[..k][j];
    IndexFromStops(s, c, 0, k);
  }

  /** Splitting `a`, a separator and `b` splits `a` and `b` apart. */
  lemma {:induction false} SplitJoined(a: string, sep: char, b: string)
    ensures Split(a + [sep] + b, sep) == Split(a, sep) + Split(b, sep)
    decreases |a|
  {
    var j := FirstIndex(a, sep);
    if j < |a| {
      SplitJoined(a[j + 1..], sep, b);
      SplitJoinedCut(a, sep, b, j);
    } else {
      SplitJoinedWhole(a, sep, b);
    }
  }

  /** `a` without a separator is the first piece of `a`, `sep` and `b`. */
  lemma {:induction false} SplitJoinedWhole(a: string, sep: char, b: string)
    requires FirstIndex(a, sep) == |a|
    ensures Split(a + [sep] + b, sep) == Split(a, sep) + Split(b, sep)
  {
    var s := a + [sep] + b;
    FirstIndexFirst(a, sep);
    assert s[..|a|] == a == a[..|a|];
    FirstIndexUnique(s, sep, |a|);
    assert s[|a| + 1..] == b;
  }

  /** A separator inside `a` cuts `a`, `sep` and `b` where it cuts `a`, so what
      holds of the rest of `a` holds of `a`. */
  lemma {:induction false} SplitJoinedCut(a: string, sep: char, b: string, j: nat)
    requires j == FirstIndex(a, sep) && j < |a|
    requires Split(a[j + 1..] + [sep] + b, sep) == Split(a[j + 1..], sep) + Split(b, sep)
    ensures Split(a + [sep] + b, sep) == Split(a, sep) + Split(b, sep)
  {
    var s := a + [sep] + b;
    var rest := a[j + 1..];
    assert s[..j] == a[..j] && s[j] == sep;
    assert s[j + 1..] == rest + [sep] + b;
    FirstIndexFirst(a, sep);
    SplitAtFirst(s, sep, j);
    var first, p, q := [a[..j]], Split(rest, sep), Split(b, sep);
    assert Split(a, sep) == first + p;
    assert first + (p + q) == (first + p) + q;
  }

  /** A split cuts at the first separator. */
  lemma {:induction false} SplitAtFirst(s: string, sep: char, k: nat)
    requires k < |s| && s[k] == sep && sep !in s[..k]
    ensures Split(s, sep) == [s[..k]] + Split(s[k + 1..], sep)
  {
    FirstIndexUnique(s, sep, k);
  }

  /** `pieces.join(sep)`. */
  function Join(pieces: seq<string>, sep: char): string {
    if pieces == [] then ""
    else if |pieces| == 1 then pieces[0]
    else pieces[0] + [sep] + Join(pieces[1..], sep)
  }

  /** No piece of a split contains the separator. */
  lemma {:induction false} SplitPiecesHaveNoSeparator(s: string, sep: char)
    ensures forall i :: 0 <= i < |Split(s, sep)| ==> sep !in Split(s, sep)[i]
    decreases |s|
  {
    var k := FirstIndex(s, sep);
    FirstIndexFirst(s, sep);
    if k < |s| {
      SplitPiecesHaveNoSeparator(s[k + 1..], sep);
    } else {
      assert s[..k] == s;
    }
  }

  /** Joining the pieces with the separator gives back the text: nothing is lost
      and the pieces keep their order. */
  lemma {:induction false} JoinSplit(s: string, sep: char)
    ensures Join(Split(s, sep), sep) == s
    decreases |s|
  {
    var k := FirstIndex(s, sep);
    if k < |s| {
      var rest := Split(s[k + 1..], sep);
      JoinSplit(s[k + 1..], sep);
      var pieces := [s[..k]] + rest;
      assert Split(s, sep) == pieces;
      assert |pieces| > 1 && pieces[0] == s[..k] && pieces[1..] == rest;
      assert Join(pieces, sep) == s[..k] + [sep] + Join(rest, sep);
      assert s == s[..k] + [sep] + s[k + 1..];
    }
  }

  /** A split yields one piece more than there are separators. */
  lemma {:induction false} SplitLength(s: string, sep: char)
    ensures |Split(s, sep)| == Count(sep, s) + 1
    decreases |s|
  {
    var k := FirstIndex(s, sep);
    if k < |s| {
      SplitLength(s[k + 1..], sep);
      CountAtFirst(s, sep, k);
    } else {
      FirstIndexFirst(s, sep);
      assert s[..k] == s;
    }
  }

  /** Up to its first occurrence, `c` is counted once. */
  lemma {:induction false} CountAtFirst(s: string, c: char, k: nat)
    requires k == FirstIndex(s, c) && k < |s|
    ensures Count(c, s) == 1 + Count(c, s[k + 1..])
  {
    assert s == s[..k] + ([c] + s[k + 1..]);
    CountAppend(c, s[..k], [c] + s[k + 1..]);
    CountAppend(c, [c], s[k + 1..]);
    FirstIndexFirst(s, c);
  }

  /** `a.localeCompare(b)` modelled as code-point lexicographic order:
      negative, zero or positive as `a` sorts before, with, or after `b`. */
  function Compare(a: string, b: string): (r: int)
    ensures -1 <= r <= 1
  {
    if a == [] && b == [] then 0
    else if a == [] then -1
    else if b == [] then 1
    else if a[0] < b[0] then -1
    else if a[0] > b[0] then 1
    else Compare(a[1..], b[1..])
  }

  /** Only equal strings compare as equal. */
  lemma {:induction false} CompareZero(a: string, b: string)
    ensures Compare(a, b) == 0 <==> a == b
  {
    if a != [] && b != [] && a[0] == b[0] {
      CompareZero(a[1..], b[1..]);
      assert a == [a[0]] + a[1..] && b == [b[0]] + b[1..];
    }
  }

  /** Swapping the operands flips the sign. */
  lemma {:induction false} CompareFlip(a: string, b: string)
    ensures Compare(b, a) == -Compare(a, b)
  {
    if a != [] && b != [] && a[0] == b[0] {
      CompareFlip(a[1..], b[1..]);
    }
  }

  lemma {:induction false} CompareTransitive(a: string, b: string, c: string)
    requires Compare(a, b) <= 0 && Compare(b, c) <= 0
    ensures Compare(a, c) <= 0
  {
    if a != [] && b != [] && c != [] && a[0] == b[0] && b[0] == c[0] {
      CompareTransitive(a[1..], b[1..], c[1..]);
    }
  }
}
