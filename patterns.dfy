/**
 * The attribute patterns (src/attr.rs:85-102) as recognisers. Each one is
 * anchored at the start of the line. The parts before the type are
 * deterministic (a blank run is followed by a token that cannot be blank, a
 * word run by a character that cannot be a word character), and the parts
 * after the type are optional; so a line matches exactly when the type
 * recogniser offers at least one candidate, and its FIRST candidate gives
 * the `ty` capture, from which `name`, `desc` and `link` follow.
 */
module Patterns {
  import opened Wrappers
  import opened Text
  import opened TypeGrammar
  import opened Attr

  /** Position after `^[ \t]*---[ \t]*`, when the line starts that way. */
  function AfterMarker(s: string): (r: Option<nat>)
    ensures r.Some? ==> r.value <= |s|
  {
    var a := SkipBlank(s, 0);
    if StartsAt(s, a, "---") then Some(SkipBlank(s, a + 3)) else None
  }

  /** Position after `^[ \t]*---[ \t]*` `tag` `[ \t]+`, when the line starts that way. */
  function AfterTag(s: string, tag: string): (r: Option<nat>)
    ensures r.Some? ==> r.value <= |s|
  {
    match AfterMarker(s)
    case None => None
    case Some(p) =>
      if StartsAt(s, p, tag) && SkipBlank(s, p + |tag|) > p + |tag|
      then Some(SkipBlank(s, p + |tag|))
      else None
  }

  /**
   * `([ \t]+(?<desc>.*$))?` at `e`: a blank run and then the rest of the
   * line, provided `$` holds where `.*` stops; otherwise the group is
   * skipped and there is no description.
   */
  function TrailingDesc(s: string, e: nat): (r: Option<string>)
    requires e <= |s|
    ensures r.Some? ==> e < |s| && IsBlank(s[e])
    ensures r.Some? ==> '\n' !in r.value && (r.value == [] || !IsBlank(r.value[0]))
    ensures r.Some? ==> var d := SkipBlank(s, e); s[d..] == r.value || s[d..] == r.value + "\n"
    ensures e < |s| && IsBlank(s[e]) && (forall j :: e <= j < |s| - 1 ==> s[j] != '\n') ==> r.Some?
  {
    var d := SkipBlank(s, e);
    if d > e && AtEnd(s, LineEnd(s, d)) then Some(s[d..LineEnd(s, d)]) else None
  }

  /** `(?<name>\w+|\.\.\.)` at `p`: where the name ends. */
  function ParamNameEnd(s: string, p: nat): (r: Option<nat>)
    requires p <= |s|
    ensures r.Some? ==> p < r.value <= |s|
  {
    if WordEnd(s, p) > p then Some(WordEnd(s, p))
    else if StartsAt(s, p, "...") then Some(p + 3)
    else None
  }

  /** The `param` pattern (src/attr.rs:89). */
  function MatchParam(s: string): (r: Option<Attribute>)
    ensures r.Some? ==> r.value.Param?
  {
    match AfterTag(s, "@param")
    case None => None
    case Some(n0) =>
      match ParamNameEnd(s, n0)
      case None => None
      case Some(ne) =>
        var t0 := SkipBlank(s, ne);
        if t0 == ne then None
        else
          var cs := Ty(s, t0);
          if cs == [] then None
          else Some(Param(s[n0..ne], s[t0..cs[0]], TrailingDesc(s, cs[0])))
  }

  /** The `ret` pattern (src/attr.rs:92): `([ \t]+(?<name>\w+)([ \t]+(?<desc>.*$))?)?` after the type. */
  function MatchReturn(s: string): (r: Option<Attribute>)
    ensures r.Some? ==> r.value.Return?
  {
    match AfterTag(s, "@return")
    case None => None
    case Some(t0) =>
      var cs := Ty(s, t0);
      if cs == [] then None
      else
        var e := cs[0];
        var w := SkipBlank(s, e);
        if w > e && WordEnd(s, w) > w
        then Some(Return(s[t0..e], Some(s[w..WordEnd(s, w)]), TrailingDesc(s, WordEnd(s, w))))
        else Some(Return(s[t0..e], None, None))
  }

  /** The `see` pattern (src/attr.rs:94): the link is `\w+(\.\w+)?`. */
  function MatchSee(s: string): (r: Option<Attribute>)
    ensures r.Some? ==> r.value.See?
  {
    match AfterTag(s, "@see")
    case None => None
    case Some(l0) =>
      var a := WordEnd(s, l0);
      if a == l0 then None
      else
        var b := if a < |s| && s[a] == '.' && WordEnd(s, a + 1) > a + 1 then WordEnd(s, a + 1) else a;
        Some(See(s[l0..b], TrailingDesc(s, b)))
  }

  /** The `class` pattern (src/attr.rs:96): `@class`, blanks, then a word. */
  function MatchClass(s: string): (r: Option<Attribute>)
    ensures r.Some? ==> r.value.Class?
  {
    match AfterTag(s, "@class")
    case None => None
    case Some(c0) =>
      if WordEnd(s, c0) > c0 then Some(Class(s[c0..WordEnd(s, c0)])) else None
  }

  /** The `classmod` pattern (src/attr.rs:97): a prefix match. */
  predicate IsClassMod(s: string) {
    match AfterMarker(s)
    case None => false
    case Some(p) => StartsAt(s, p, "@classmod")
  }

  /** The `alias` pattern (src/attr.rs:98-100), used only as a yes/no test. */
  predicate IsAlias(s: string) {
    match AfterTag(s, "@alias")
    case None => false
    case Some(n0) =>
      var ne := WordEnd(s, n0);
      var t0 := SkipBlank(s, ne);
      ne > n0 && t0 > ne && Ty(s, t0) != []
  }

  // ---- properties of the patterns ----

  /**
   * A `param` line: the name is a word or `...`, the type is a non-empty
   * text starting where a type can start, and a description, when present,
   * is the rest of the line after the blank run that ends the type.
   */
  lemma ParamShape(s: string)
    requires MatchParam(s).Some?
    ensures var a := MatchParam(s).value;
      |a.name| > 0 && ((forall k :: 0 <= k < |a.name| ==> IsWordChar(a.name[k])) || a.name == "...")
    ensures var a := MatchParam(s).value;
      |a.ty| > 0 && (a.ty[0] == '{' || a.ty[0] == '(' || a.ty[0] == '"' || IsWordChar(a.ty[0]))
  {
    var n0 := AfterTag(s, "@param").value;
    var ne := ParamNameEnd(s, n0).value;
    var t0 := SkipBlank(s, ne);
    TyStart(s, t0);
    var a := MatchParam(s).value;
    assert a.name == s[n0..ne];
    if WordEnd(s, n0) > n0 {
      WordSlice(s, n0, ne);
    } else {
      assert a.name == s[n0..n0 + 3];
    }
    assert a.ty[0] == s[t0];
  }

  /** A slice made of word characters, as a string of its own. */
  lemma WordSlice(s: string, i: nat, j: nat)
    requires i < j <= |s|
    requires forall k :: i <= k < j ==> IsWordChar(s[k])
    ensures |s[i..j]| > 0 && forall k :: 0 <= k < |s[i..j]| ==> IsWordChar(s[i..j][k])
  {
    assert forall k :: 0 <= k < |s[i..j]| ==> s[i..j][k] == s[i + k];
  }

  /** The type of a `param` line ends right where the description's blank run begins. */
  lemma ParamDescFollowsType(s: string)
    requires MatchParam(s).Some? && MatchParam(s).value.desc.Some?
    ensures var a := MatchParam(s).value;
      exists e :: 0 <= e < |s| && EndsWith(s[..e], a.ty) && IsBlank(s[e])
  {
    var n0 := AfterTag(s, "@param").value;
    var ne := ParamNameEnd(s, n0).value;
    var t0 := SkipBlank(s, ne);
    var e := Ty(s, t0)[0];
    var ty := MatchParam(s).value.ty;
    assert ty == s[t0..e];
    assert s[..e][t0..] == ty;
    assert EndsWith(s[..e], ty);
    assert IsBlank(s[e]);
  }

  /**
   * A `return` line's name is the word right after the blank run that ends
   * the type: a prose description's first word becomes the name.
   */
  lemma ReturnNameIsFirstWord(s: string)
    requires MatchReturn(s).Some?
    ensures var a := MatchReturn(s).value;
      a.rname.Some? ==>
        |a.rname.value| > 0 && forall k :: 0 <= k < |a.rname.value| ==> IsWordChar(a.rname.value[k])
    ensures var a := MatchReturn(s).value;
      var t0 := AfterTag(s, "@return").value;
      var e := t0 + |a.ty|;
      e <= |s| && (a.rname.Some? <==> (SkipBlank(s, e) > e && SkipBlank(s, e) < |s| && IsWordChar(s[SkipBlank(s, e)])))
    ensures var a := MatchReturn(s).value;
      a.rname.None? ==> a.desc.None?
  {
    var t0 := AfterTag(s, "@return").value;
    var e := Ty(s, t0)[0];
    var w := SkipBlank(s, e);
    var a := MatchReturn(s).value;
    assert a.ty == s[t0..e];
    if w > e && WordEnd(s, w) > w {
      assert a.rname == Some(s[w..WordEnd(s, w)]);
      WordSlice(s, w, WordEnd(s, w));
    } else {
      assert a.rname.None? && a.desc.None?;
    }
  }

  /** The `see` link is one word, or two words joined by a single dot. */
  lemma SeeLinkShape(s: string)
    requires MatchSee(s).Some?
    ensures var l := MatchSee(s).value.link;
      |l| > 0 && IsWordChar(l[0]) && IsWordChar(l[|l| - 1])
      && (forall k :: 0 <= k < |l| ==> IsWordChar(l[k]) || l[k] == '.')
      && (forall j, k :: 0 <= j < |l| && 0 <= k < |l| && l[j] == '.' && l[k] == '.' ==> j == k)
  {
    var l0 := AfterTag(s, "@see").value;
    var a := WordEnd(s, l0);
    var b := if a < |s| && s[a] == '.' && WordEnd(s, a + 1) > a + 1 then WordEnd(s, a + 1) else a;
    assert MatchSee(s).value.link == s[l0..b];
    OneDotLink(s, l0, a, b);
  }

  /** A word run from `l0` to `a`, optionally followed by a dot and another word run up to `b`. */
  lemma OneDotLink(s: string, l0: nat, a: nat, b: nat)
    requires l0 < a <= b <= |s|
    requires forall k :: l0 <= k < a ==> IsWordChar(s[k])
    requires b > a ==> s[a] == '.' && b > a + 1 && forall k :: a + 1 <= k < b ==> IsWordChar(s[k])
    ensures var l := s[l0..b];
      |l| > 0 && IsWordChar(l[0]) && IsWordChar(l[|l| - 1])
      && (forall k :: 0 <= k < |l| ==> IsWordChar(l[k]) || l[k] == '.')
      && (forall j, k :: 0 <= j < |l| && 0 <= k < |l| && l[j] == '.' && l[k] == '.' ==> j == k)
  {
    var l := s[l0..b];
    assert forall k :: 0 <= k < |l| ==> l[k] == s[l0 + k];
  }

  /** A `classmod` line is never a `class` line: `@class` must be followed by a blank. */
  lemma ClassModIsNotClass(s: string)
    requires IsClassMod(s)
    ensures MatchClass(s).None?
  {
    var p := AfterMarker(s).value;
    assert s[p..p + 9] == "@classmod";
    assert s[p + 6] == "@classmod"[6];
    if StartsAt(s, p, "@class") {
      assert SkipBlank(s, p + 6) == p + 6;
    }
  }

  /** Two tags that differ at some position cannot both begin a line. */
  lemma TagsExclusive(s: string, t1: string, t2: string, k: nat)
    requires k < |t1| && k < |t2| && t1[k] != t2[k]
    ensures AfterTag(s, t1).None? || AfterTag(s, t2).None?
  {
  }

  /** At most one of the `param`, `return`, `see` and `class` patterns matches a line. */
  lemma AttributePatternsExclusive(s: string)
    ensures MatchParam(s).Some? ==> MatchReturn(s).None? && MatchSee(s).None? && MatchClass(s).None?
    ensures MatchReturn(s).Some? ==> MatchSee(s).None? && MatchClass(s).None?
    ensures MatchSee(s).Some? ==> MatchClass(s).None?
  {
    TagsExclusive(s, "@param", "@return", 1);
    TagsExclusive(s, "@param", "@see", 1);
    TagsExclusive(s, "@param", "@class", 1);
    TagsExclusive(s, "@return", "@see", 1);
    TagsExclusive(s, "@return", "@class", 1);
    TagsExclusive(s, "@see", "@class", 1);
  }
}
