/**
 * The type sub-pattern shared by the `@param`, `@return` and `@alias`
 * patterns (src/attr.rs:89, 92, 99), as a recursive-descent recogniser.
 *
 * The pattern is recursive through PCRE subroutine calls:
 *
 *   ty    := alt ([ \t]* '|' [ \t]* ty)*
 *   alt   := prim '[]'? '?'?  |  '(' ty ')' '[]'? '?'?
 *   prim  := '{' .* '}'  |  'table<' ty ',' [ \t]* ty '>'
 *          |  'fun(' arg? (',' [ \t]* arg)* [ \t]* ')' (':' [ \t]* ty)?
 *          |  \w+  |  '"' .* '"'
 *   arg   := \w+ ':' [ \t]* ty
 *
 * Each recogniser returns every position where a match starting at its
 * argument can end, in the order PCRE's backtracking tries them: a greedy
 * repetition offers its longer forms first, an alternation its alternatives
 * left to right, and a sequence tries the later part against each end of the
 * earlier part in turn. The regex engine takes the first of these for which
 * the rest of the pattern succeeds.
 *
 * A blank run `[ \t]*` is always followed here by a token that cannot start
 * with a blank (`|`, `)`, a word character or a type), so only its longest
 * form can succeed and it is scanned with `SkipBlank`; `TyAtBlankFails`
 * shows that a type never starts at a blank. The same holds for `\w+`
 * before `:` in `arg`.
 *
 * Every recursive reference follows at least one consumed character, so each
 * recursive call starts strictly later in the subject: that is the first
 * component of every `decreases` clause below.
 */
module TypeGrammar {
  import opened Text

  /** Every candidate lies strictly after `lo` and inside the subject. */
  predicate Within(r: seq<nat>, lo: int, n: nat) {
    forall k :: 0 <= k < |r| ==> lo < r[k] <= n
  }

  /** `(?<ty> … )`: the ends of the matches of the whole type pattern at `i`. */
  function Ty(s: string, i: nat): (r: seq<nat>)
    requires i <= |s|
    ensures Within(r, i, |s|)
    decreases |s| - i, 6, 0
  {
    UnionAll(s, Alt(s, i), i)
  }

  /** `([ \t]*\|[ \t]*(?2))*` from `p`: the longest repetitions first, `p` itself last. */
  function Union(s: string, p: nat): (r: seq<nat>)
    requires p <= |s|
    ensures Within(r, p - 1, |s|)
    ensures |r| > 0 && r[|r| - 1] == p
    decreases |s| - p, 5, 0
  {
    var q := SkipBlank(s, p);
    (if q < |s| && s[q] == '|' then
       var t := SkipBlank(s, q + 1);
       UnionAll(s, Ty(s, t), t)
     else [])
    + [p]
  }

  /** `Union` tried after each candidate of `cs`, in turn. */
  function UnionAll(s: string, cs: seq<nat>, lo: nat): (r: seq<nat>)
    requires lo <= |s| && Within(cs, lo, |s|)
    ensures Within(r, lo, |s|)
    decreases |s| - lo, 4, |cs|
  {
    if cs == [] then [] else Union(s, cs[0]) + UnionAll(s, cs[1..], lo)
  }

  /** `(prim)(\[\])?\??` first, then `\((?2)\)(\[\])?\??`. */
  function Alt(s: string, i: nat): (r: seq<nat>)
    requires i <= |s|
    ensures Within(r, i, |s|)
    decreases |s| - i, 3, 0
  {
    SuffixAll(s, Primary(s, i), i)
    + (if i < |s| && s[i] == '(' then CloseParen(s, Ty(s, i + 1), i + 1) else [])
  }

  /** The five primary alternatives, left to right. */
  function Primary(s: string, i: nat): (r: seq<nat>)
    requires i <= |s|
    ensures Within(r, i, |s|)
    decreases |s| - i, 2, 0
  {
    var b, t, f, w, q := Delimited(s, i, '{', '}'), Table(s, i), Fun(s, i), Word(s, i), Delimited(s, i, '"', '"');
    WithinAppend(b, t, i, |s|);
    WithinAppend(b + t, f, i, |s|);
    WithinAppend(b + t + f, w, i, |s|);
    WithinAppend(b + t + f + w, q, i, |s|);
    b + t + f + w + q
  }

  /** Candidate ends of two alternatives stay within the bounds of both. */
  lemma WithinAppend(a: seq<nat>, b: seq<nat>, lo: int, n: nat)
    requires Within(a, lo, n) && Within(b, lo, n)
    ensures Within(a + b, lo, n)
  {
  }

  /** `table\<(?2),[ \t]*(?2)\>` */
  function Table(s: string, i: nat): (r: seq<nat>)
    requires i <= |s|
    ensures Within(r, i, |s|)
    decreases |s| - i, 1, 0
  {
    if StartsAt(s, i, "table<") then TableComma(s, Ty(s, i + 6), i + 6) else []
  }

  /** After each candidate key type: `,[ \t]*(?2)\>`. */
  function TableComma(s: string, cs: seq<nat>, lo: nat): (r: seq<nat>)
    requires lo <= |s| && Within(cs, lo, |s|)
    ensures Within(r, lo, |s|)
    decreases |s| - lo, 1, |cs|
  {
    if cs == [] then []
    else
      (if cs[0] < |s| && s[cs[0]] == ',' then
         var t := SkipBlank(s, cs[0] + 1);
         CloseWith(s, Ty(s, t), t, '>')
       else [])
      + TableComma(s, cs[1..], lo)
  }

  /** `fun\((\w+:[ \t]*(?2))?(,[ \t]*(?6))*[ \t]*\)(:[ \t]*(?2))?` */
  function Fun(s: string, i: nat): (r: seq<nat>)
    requires i <= |s|
    ensures Within(r, i, |s|)
    decreases |s| - i, 1, 0
  {
    if StartsAt(s, i, "fun(") then
      FunClose(s, ArgRepAll(s, Arg(s, i + 4) + [i + 4], i + 3), i + 3)
    else []
  }

  /** Group 6, one argument: `\w+:[ \t]*(?2)`. */
  function Arg(s: string, p: nat): (r: seq<nat>)
    requires p <= |s|
    ensures Within(r, p, |s|)
    decreases |s| - p, 0, 0
  {
    var w := WordEnd(s, p);
    if w > p && w < |s| && s[w] == ':' then Ty(s, SkipBlank(s, w + 1)) else []
  }

  /** `(,[ \t]*(?6))*` from `p`: further arguments, the longest lists first. */
  function ArgRep(s: string, p: nat): (r: seq<nat>)
    requires p <= |s|
    ensures Within(r, p - 1, |s|)
    ensures |r| > 0 && r[|r| - 1] == p
    decreases |s| - p, 5, 0
  {
    (if p < |s| && s[p] == ',' then
       var a := SkipBlank(s, p + 1);
       ArgRepAll(s, Arg(s, a), a)
     else [])
    + [p]
  }

  /** `ArgRep` tried after each candidate of `cs`, in turn. */
  function ArgRepAll(s: string, cs: seq<nat>, lo: nat): (r: seq<nat>)
    requires lo <= |s| && Within(cs, lo, |s|)
    ensures Within(r, lo, |s|)
    decreases |s| - lo, 4, |cs|
  {
    if cs == [] then [] else ArgRep(s, cs[0]) + ArgRepAll(s, cs[1..], lo)
  }

  /** After each candidate argument list: `[ \t]*\)` and the optional return type. */
  function FunClose(s: string, cs: seq<nat>, lo: nat): (r: seq<nat>)
    requires lo <= |s| && Within(cs, lo, |s|)
    ensures Within(r, lo, |s|)
    decreases |s| - lo, 1, |cs|
  {
    if cs == [] then []
    else
      (var q := SkipBlank(s, cs[0]);
       if q < |s| && s[q] == ')' then FunReturn(s, q + 1) else [])
      + FunClose(s, cs[1..], lo)
  }

  /** `(:[ \t]*(?2))?` from `p`: with a return type first, without it last. */
  function FunReturn(s: string, p: nat): (r: seq<nat>)
    requires p <= |s|
    ensures Within(r, p - 1, |s|)
    decreases |s| - p, 0, 0
  {
    (if p < |s| && s[p] == ':' then Ty(s, SkipBlank(s, p + 1)) else []) + [p]
  }

  // ---- the non-recursive pieces ----

  /**
   * `\{.*\}` (with `{` and `}`) and `".*"` (with `"` twice): after each
   * `close` before the end of the line, the last one first.
   */
  function Delimited(s: string, i: nat, open: char, close: char): (r: seq<nat>)
    requires i <= |s|
    ensures Within(r, i + 1, |s|)
  {
    if i < |s| && s[i] == open then Closers(s, i + 1, LineEnd(s, i + 1), close) else []
  }

  /** The positions just after each `c` in `s[lo..k]`, from the right. */
  function Closers(s: string, lo: nat, k: nat, c: char): (r: seq<nat>)
    requires lo <= k <= |s|
    ensures Within(r, lo, k)
    ensures forall m :: 0 <= m < |r| ==> s[r[m] - 1] == c
    ensures forall j :: lo < j <= k && s[j - 1] == c ==> j in r
    ensures forall a, b :: 0 <= a < b < |r| ==> r[a] > r[b]
    decreases k - lo
  {
    if k == lo then []
    else (if s[k - 1] == c then [k] else []) + Closers(s, lo, k - 1, c)
  }

  /** `\w+`: every end of the word run at `i`, the longest first. */
  function Word(s: string, i: nat): (r: seq<nat>)
    requires i <= |s|
    ensures Within(r, i, |s|)
    ensures |r| > 0 <==> i < |s| && IsWordChar(s[i])
    ensures |r| > 0 ==> r[0] == WordEnd(s, i)
  {
    Countdown(i, WordEnd(s, i))
  }

  /** `[hi, hi - 1, …, lo + 1]` */
  function Countdown(lo: nat, hi: nat): (r: seq<nat>)
    ensures Within(r, lo, hi)
    ensures |r| > 0 <==> lo < hi
    ensures |r| > 0 ==> r[0] == hi
    decreases hi
  {
    if hi <= lo then [] else [hi] + Countdown(lo, hi - 1)
  }

  /** `(\[\])?\??` after `q`. */
  function Suffix(s: string, q: nat): (r: seq<nat>)
    requires q <= |s|
    ensures Within(r, q - 1, |s|)
    ensures |r| > 0
  {
    (if StartsAt(s, q, "[]") then Question(s, q + 2) else []) + Question(s, q)
  }

  /** `\??` after `q`. */
  function Question(s: string, q: nat): (r: seq<nat>)
    requires q <= |s|
    ensures Within(r, q - 1, |s|)
    ensures |r| > 0
  {
    (if q < |s| && s[q] == '?' then [q + 1] else []) + [q]
  }

  /** `Suffix` after each candidate of `cs`, in turn. */
  function SuffixAll(s: string, cs: seq<nat>, lo: nat): (r: seq<nat>)
    requires lo <= |s| && Within(cs, lo, |s|)
    ensures Within(r, lo, |s|)
    ensures |cs| > 0 ==> |r| > 0
    decreases |cs|
  {
    if cs == [] then [] else Suffix(s, cs[0]) + SuffixAll(s, cs[1..], lo)
  }

  /** `\)(\[\])?\??` after each candidate of `cs`, in turn. */
  function CloseParen(s: string, cs: seq<nat>, lo: nat): (r: seq<nat>)
    requires lo <= |s| && Within(cs, lo, |s|)
    ensures Within(r, lo, |s|)
    decreases |cs|
  {
    if cs == [] then []
    else
      (if cs[0] < |s| && s[cs[0]] == ')' then Suffix(s, cs[0] + 1) else [])
      + CloseParen(s, cs[1..], lo)
  }

  /** The literal `c` after each candidate of `cs`, in turn. */
  function CloseWith(s: string, cs: seq<nat>, lo: nat, c: char): (r: seq<nat>)
    requires lo <= |s| && Within(cs, lo, |s|)
    ensures Within(r, lo, |s|)
    decreases |cs|
  {
    if cs == [] then []
    else (if cs[0] < |s| && s[cs[0]] == c then [cs[0] + 1] else []) + CloseWith(s, cs[1..], lo, c)
  }

  // ---- properties of the recogniser ----

  /** A type can only start at `{`, `(`, `"` or a word character; in particular never at a blank. */
  lemma TyStart(s: string, i: nat)
    requires i <= |s|
    ensures Ty(s, i) != [] ==> i < |s| && (s[i] == '{' || s[i] == '(' || s[i] == '"' || IsWordChar(s[i]))
  {
    if i == |s| || !(s[i] == '{' || s[i] == '(' || s[i] == '"' || IsWordChar(s[i])) {
      NotStartsAt(s, i, "table<");
      NotStartsAt(s, i, "fun(");
      assert Delimited(s, i, '{', '}') == [];
      assert Delimited(s, i, '"', '"') == [];
      assert Word(s, i) == [];
      assert Table(s, i) == [];
      assert Fun(s, i) == [];
      assert Primary(s, i) == [];
      assert Alt(s, i) == [];
      assert UnionAll(s, [], i) == [];
      assert Ty(s, i) == UnionAll(s, Alt(s, i), i);
    }
  }

  /** A blank run before a type can only succeed at its full length: a type never starts at a blank. */
  lemma TyAtBlankFails(s: string, i: nat)
    requires i <= |s|
    requires i == |s| || IsBlank(s[i])
    ensures Ty(s, i) == []
  {
    TyStart(s, i);
  }

  /** The first candidate of `UnionAll` is the first candidate of `Union` after the first input. */
  lemma UnionAllHead(s: string, cs: seq<nat>, lo: nat)
    requires lo <= |s| && Within(cs, lo, |s|) && cs != []
    ensures UnionAll(s, cs, lo) != [] && UnionAll(s, cs, lo)[0] == Union(s, cs[0])[0]
  {
  }

  /** The first candidate of `SuffixAll` is the first suffix of the first input. */
  lemma SuffixAllHead(s: string, cs: seq<nat>, lo: nat)
    requires lo <= |s| && Within(cs, lo, |s|) && cs != []
    ensures SuffixAll(s, cs, lo) != [] && SuffixAll(s, cs, lo)[0] == Suffix(s, cs[0])[0]
  {
  }

  /**
   * When some primary matches at `i`, the type's first candidate comes from
   * the first primary candidate, extended by the longest suffix and union.
   */
  lemma TyHeadFromPrimary(s: string, i: nat)
    requires i <= |s| && Primary(s, i) != []
    ensures Ty(s, i) != []
    ensures Ty(s, i)[0] == Union(s, Suffix(s, Primary(s, i)[0])[0])[0]
  {
    SuffixAllHead(s, Primary(s, i), i);
    UnionAllHead(s, Alt(s, i), i);
  }

  /** The first candidate of a union: the longest repetition that matches at all. */
  lemma UnionHead(s: string, p: nat)
    requires p <= |s|
    ensures var q := SkipBlank(s, p);
      Union(s, p)[0] ==
        if q < |s| && s[q] == '|' && Ty(s, SkipBlank(s, q + 1)) != []
        then Union(s, Ty(s, SkipBlank(s, q + 1))[0])[0]
        else p
  {
    var q := SkipBlank(s, p);
    if q < |s| && s[q] == '|' {
      var t := SkipBlank(s, q + 1);
      if Ty(s, t) != [] { UnionAllHead(s, Ty(s, t), t); }
    }
  }

  /** Where nothing follows that extends a union, the union stops where it started. */
  lemma UnionStops(s: string, p: nat)
    requires p <= |s|
    requires SkipBlank(s, p) == |s| || s[SkipBlank(s, p)] != '|'
    ensures Union(s, p)[0] == p
  {
    UnionHead(s, p);
  }

  /** The first candidate of `(\[\])?\??`: as much as is there. */
  lemma SuffixHead(s: string, q: nat)
    requires q <= |s|
    ensures Suffix(s, q)[0] ==
      if StartsAt(s, q, "[]") then (if q + 2 < |s| && s[q + 2] == '?' then q + 3 else q + 2)
      else if q < |s| && s[q] == '?' then q + 1 else q
  {
  }

  /** At a word that does not begin `table<` or `fun(`, the only primary is the word itself. */
  lemma PrimaryAtWord(s: string, i: nat)
    requires i < |s| && IsWordChar(s[i])
    requires !StartsAt(s, i, "table<") && !StartsAt(s, i, "fun(")
    ensures Primary(s, i) == Word(s, i)
    ensures Primary(s, i) != [] && Primary(s, i)[0] == WordEnd(s, i)
  {
  }

  /**
   * A plain word followed by neither `[]`, `?` nor a `|` gives a type that is
   * exactly that word.
   */
  lemma TyOfPlainWord(s: string, i: nat)
    requires i < |s| && IsWordChar(s[i])
    requires !StartsAt(s, i, "table<") && !StartsAt(s, i, "fun(")
    requires var e := WordEnd(s, i); e == |s| || (s[e] != '[' && s[e] != '?')
    requires var q := SkipBlank(s, WordEnd(s, i)); q == |s| || s[q] != '|'
    ensures Ty(s, i) != [] && Ty(s, i)[0] == WordEnd(s, i)
  {
    var e := WordEnd(s, i);
    PrimaryAtWord(s, i);
    TyHeadFromPrimary(s, i);
    NotStartsAt(s, e, "[]");
    SuffixHead(s, e);
    assert Suffix(s, e)[0] == e;
    UnionStops(s, e);
  }

  /**
   * A `{` type: its first primary candidate ends just after the last `}` of
   * the line, so the type capture reaches at least that far.
   */
  lemma BracedHeadIsLastBrace(s: string, i: nat, j: nat)
    requires i < |s| && s[i] == '{'
    requires i < j < LineEnd(s, i + 1) && s[j] == '}'
    requires forall k :: j < k < LineEnd(s, i + 1) ==> s[k] != '}'
    ensures Ty(s, i) != [] && Ty(s, i)[0] >= j + 1
  {
    var cs := Closers(s, i + 1, LineEnd(s, i + 1), '}');
    assert j + 1 in cs;
    var h := cs[0];
    assert s[h - 1] == '}';
    assert h == j + 1;
    assert Primary(s, i)[0] == h;
    TyHeadFromPrimary(s, i);
    SuffixHead(s, h);
    var a := Suffix(s, h)[0];
    assert Union(s, a)[0] >= a;
  }
}
