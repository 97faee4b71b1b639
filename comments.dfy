/**
 * `parse_comments` (src/main.rs:205-290): the comment run of a chunk is
 * filtered down to doc comments, and each of those becomes either body text
 * or one attribute, by the first pattern that matches it.
 */
module Comments {
  import opened Wrappers
  import opened Text
  import opened Tree
  import opened Failures
  import opened Attr
  import opened Patterns

  /** What one doc-comment line turns into. */
  datatype LineClass =
    | BodyLine
    | AttrLine(attr: Attribute)
    | AliasLine

  /** `^[ \t]*---[ \t]*(@|\|)?`: the optional tail never decides, so this is a `---` prefix test. */
  predicate IsDocComment(text: string) {
    AfterMarker(text).Some?
  }

  /**
   * The dispatch of src/main.rs:227-283, tried in order: param, return,
   * see, class, classmod, nodoc; a line that only the alias pattern
   * matches is a failure, and anything else is body text. `isNoDoc` is the
   * nodoc pattern, whose definition is not part of this model.
   */
  function Classify(text: string, isNoDoc: string -> bool): (r: LineClass)
    ensures r.AttrLine? ==> !r.attr.Alias?
    ensures r.AttrLine? && r.attr.Param? ==> MatchParam(text).Some?
    ensures r == BodyLine <==>
      MatchParam(text).None? && MatchReturn(text).None? && MatchSee(text).None? && MatchClass(text).None?
      && !IsClassMod(text) && !isNoDoc(text) && !IsAlias(text)
  {
    if MatchParam(text).Some? then AttrLine(MatchParam(text).value)
    else if MatchReturn(text).Some? then AttrLine(MatchReturn(text).value)
    else if MatchSee(text).Some? then AttrLine(MatchSee(text).value)
    else if MatchClass(text).Some? then AttrLine(MatchClass(text).value)
    else if IsClassMod(text) then AttrLine(ClassMod)
    else if isNoDoc(text) then AttrLine(NoDoc)
    else if IsAlias(text) then AliasLine
    else BodyLine
  }

  /** The doc comments of a run, in order. */
  function Kept(comments: seq<Node>): (r: seq<Node>)
    ensures |r| <= |comments|
  {
    if comments == [] then []
    else (if IsDocComment(comments[0].text) then [comments[0]] else []) + Kept(comments[1..])
  }

  /** `Kept` keeps exactly the doc comments. */
  lemma {:induction false} KeptIsFilter(comments: seq<Node>)
    ensures forall k :: 0 <= k < |Kept(comments)| ==> IsDocComment(Kept(comments)[k].text)
    ensures forall n :: n in comments && IsDocComment(n.text) ==> n in Kept(comments)
    ensures forall n :: n in Kept(comments) ==> n in comments
  {
    if comments != [] {
      KeptIsFilter(comments[1..]);
      var head := if IsDocComment(comments[0].text) then [comments[0]] else [];
      assert Kept(comments) == head + Kept(comments[1..]);
      forall n | n in comments && IsDocComment(n.text)
        ensures n in Kept(comments)
      {
        if n != comments[0] {
          assert n in comments[1..];
        }
      }
    }
  }

  /** Whether any of `lines` is an alias line. */
  predicate HasAlias(lines: seq<Node>, isNoDoc: string -> bool) {
    exists k :: 0 <= k < |lines| && Classify(lines[k].text, isNoDoc) == AliasLine
  }

  /** The body lines among `lines`, in order. */
  function BodyOf(lines: seq<Node>, isNoDoc: string -> bool): (r: seq<Node>)
    ensures forall k :: 0 <= k < |r| ==> Classify(r[k].text, isNoDoc) == BodyLine
  {
    if lines == [] then []
    else
      BodyOf(lines[..|lines| - 1], isNoDoc)
      + (if Classify(lines[|lines| - 1].text, isNoDoc) == BodyLine then [lines[|lines| - 1]] else [])
  }

  /** The attributes of `lines`, in order. */
  function AttrsOf(lines: seq<Node>, isNoDoc: string -> bool): (r: seq<Attribute>)
  {
    if lines == [] then []
    else
      AttrsOf(lines[..|lines| - 1], isNoDoc)
      + (match Classify(lines[|lines| - 1].text, isNoDoc)
         case AttrLine(a) => [a]
         case _ => [])
  }

  /** The result of `parse_comments`: a failure as soon as any doc comment is an alias line. */
  function ParseResult(comments: seq<Node>, isNoDoc: string -> bool): Result<(seq<Node>, seq<Attribute>), Panic> {
    var lines := Kept(comments);
    if HasAlias(lines, isNoDoc) then Err(AliasNotExtracted)
    else Ok((BodyOf(lines, isNoDoc), AttrsOf(lines, isNoDoc)))
  }

  /** `parse_comments`: filter the run, then sort each line into body or attributes. */
  method ParseComments(comments: seq<Node>, isNoDoc: string -> bool)
    returns (r: Result<(seq<Node>, seq<Attribute>), Panic>)
    ensures r == ParseResult(comments, isNoDoc)
  {
    var lines := Kept(comments);
    var body: seq<Node> := [];
    var attributes: seq<Attribute> := [];
    var i := 0;
    while i < |lines|
      invariant 0 <= i <= |lines|
      invariant body == BodyOf(lines[..i], isNoDoc)
      invariant attributes == AttrsOf(lines[..i], isNoDoc)
      invariant !HasAlias(lines[..i], isNoDoc)
    {
      TakeSnoc(lines, i);
      AttrsOfSnoc(lines[..i], lines[i], isNoDoc);
      HasAliasSnoc(lines[..i], lines[i], isNoDoc);
      var c := Classify(lines[i].text, isNoDoc);
      match c {
        case AliasLine =>
          assert HasAlias(lines, isNoDoc);
          return Err(AliasNotExtracted);
        case BodyLine =>
          body := body + [lines[i]];
        case AttrLine(a) =>
          attributes := attributes + [a];
      }
      i := i + 1;
    }
    assert lines[..i] == lines;
    return Ok((body, attributes));
  }

  // ---- properties of the classification ----

  /** Every doc comment goes to exactly one of the body and the attributes. */
  lemma {:induction false} BodyAndAttrsPartition(lines: seq<Node>, isNoDoc: string -> bool)
    requires !HasAlias(lines, isNoDoc)
    ensures |BodyOf(lines, isNoDoc)| + |AttrsOf(lines, isNoDoc)| == |lines|
  {
    if lines != [] {
      var init := lines[..|lines| - 1];
      assert !HasAlias(init, isNoDoc) by {
        forall k | 0 <= k < |init|
          ensures Classify(init[k].text, isNoDoc) != AliasLine
        {
          assert init[k] == lines[k];
        }
      }
      BodyAndAttrsPartition(init, isNoDoc);
    }
  }

  /** Classification never yields an alias attribute, so no parsed attribute is an `Alias`. */
  lemma {:induction false} NoAliasAttrs(lines: seq<Node>, isNoDoc: string -> bool)
    ensures forall k :: 0 <= k < |AttrsOf(lines, isNoDoc)| ==> !AttrsOf(lines, isNoDoc)[k].Alias?
  {
    if lines != [] {
      NoAliasAttrs(lines[..|lines| - 1], isNoDoc);
    }
  }

  /** Appending a line appends at most its own attribute: attributes keep the lines' order. */
  lemma AttrsOfSnoc(lines: seq<Node>, n: Node, isNoDoc: string -> bool)
    ensures AttrsOf(lines + [n], isNoDoc) ==
      AttrsOf(lines, isNoDoc) + (match Classify(n.text, isNoDoc) case AttrLine(a) => [a] case _ => [])
    ensures BodyOf(lines + [n], isNoDoc) ==
      BodyOf(lines, isNoDoc) + (if Classify(n.text, isNoDoc) == BodyLine then [n] else [])
  {
    assert (lines + [n])[..|lines|] == lines;
  }

  /** Appending a line adds an alias exactly when that line is one. */
  lemma HasAliasSnoc(lines: seq<Node>, n: Node, isNoDoc: string -> bool)
    ensures HasAlias(lines + [n], isNoDoc) <==> HasAlias(lines, isNoDoc) || Classify(n.text, isNoDoc) == AliasLine
  {
    var s := lines + [n];
    assert s[|lines|] == n;
    if HasAlias(lines, isNoDoc) {
      var k :| 0 <= k < |lines| && Classify(lines[k].text, isNoDoc) == AliasLine;
      assert s[k] == lines[k];
    }
    if HasAlias(s, isNoDoc) && Classify(n.text, isNoDoc) != AliasLine {
      var k :| 0 <= k < |s| && Classify(s[k].text, isNoDoc) == AliasLine;
      assert s[k] == lines[k];
    }
  }

  /** A line that is not a doc comment contributes nothing, wherever it is. */
  lemma {:induction false} KeptDropsNonDoc(xs: seq<Node>, n: Node, ys: seq<Node>)
    requires !IsDocComment(n.text)
    ensures Kept(xs + [n] + ys) == Kept(xs + ys)
    decreases |xs|
  {
    if xs == [] {
      assert xs + [n] + ys == [n] + ys;
      assert xs + ys == ys;
      assert ([n] + ys)[1..] == ys;
    } else {
      assert (xs + [n] + ys)[1..] == xs[1..] + [n] + ys;
      assert (xs + ys)[1..] == xs[1..] + ys;
      KeptDropsNonDoc(xs[1..], n, ys);
    }
  }

  /**
   * `Kept` keeps the lines' order: filtering a concatenation is
   * concatenating the filtered parts, and a doc comment stays between what
   * comes before it and what comes after it.
   */
  lemma {:induction false} KeptAppend(xs: seq<Node>, ys: seq<Node>)
    ensures Kept(xs + ys) == Kept(xs) + Kept(ys)
    decreases |xs|
  {
    if xs == [] {
      assert xs + ys == ys;
    } else {
      assert (xs + ys)[1..] == xs[1..] + ys;
      KeptAppend(xs[1..], ys);
      var head := if IsDocComment(xs[0].text) then [xs[0]] else [];
      AppendAssoc(head, Kept(xs[1..]), Kept(ys));
    }
  }

  /** A doc comment is kept in place, between the lines kept before and after it. */
  lemma KeptKeepsDoc(xs: seq<Node>, n: Node, ys: seq<Node>)
    requires IsDocComment(n.text)
    ensures Kept(xs + [n] + ys) == Kept(xs) + [n] + Kept(ys)
  {
    KeptAppend(xs + [n], ys);
    KeptAppend(xs, [n]);
    assert Kept([n]) == [n] + Kept([]);
  }

  /** A `classmod` line is classified as `ClassMod`, never as `Class`. */
  lemma ClassModLine(text: string, isNoDoc: string -> bool)
    requires IsClassMod(text)
    requires MatchParam(text).None? && MatchReturn(text).None? && MatchSee(text).None?
    ensures Classify(text, isNoDoc) == AttrLine(ClassMod)
  {
    ClassModIsNotClass(text);
  }

  /** A line the nodoc pattern matches is `NoDoc` unless an earlier pattern claims it. */
  lemma NoDocLine(text: string, isNoDoc: string -> bool)
    requires isNoDoc(text)
    requires MatchParam(text).None? && MatchReturn(text).None? && MatchSee(text).None?
    requires MatchClass(text).None? && !IsClassMod(text)
    ensures Classify(text, isNoDoc) == AttrLine(NoDoc)
  {
  }
}
