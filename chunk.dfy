/**
 * A chunk and its rendering in the target dialect (src/chunk.rs:9-72).
 */
module Chunks {
  import opened Wrappers
  import opened Text
  import opened Tree
  import opened Failures
  import opened Attr
  import opened Decl

  /** A comment run's body lines and attributes, with the declaration they document. */
  datatype Chunk = Chunk(body: seq<Node>, attributes: seq<Attribute>, decl: Declaration)

  predicate HasClassMod(attrs: seq<Attribute>) {
    exists k :: 0 <= k < |attrs| && attrs[k] == ClassMod
  }

  /** The body lines, each followed by a newline. */
  function BodyText(body: seq<Node>): (r: string)
    ensures |r| >= |body|
  {
    if body == [] then ""
    else BodyText(body[..|body| - 1]) + body[|body| - 1].text + "\n"
  }

  /**
   * The output of one attribute inside a chunk that has (`classMod`) or
   * has not got a `ClassMod` attribute: a `ClassMod` adds nothing, a `Class`
   * of a chunk with a `ClassMod` uses the `classmod` keyword, and every other
   * attribute is its rendering and a newline. An attribute whose rendering
   * fails (see `FirstFailure`) adds nothing here.
   */
  function AttrText(a: Attribute, classMod: bool): (r: string)
    ensures a == ClassMod || a.Alias? || a.NoDoc? <==> r == ""
  {
    match a
    case ClassMod => ""
    case Class(ty) =>
      if classMod then "---@classmod " + ty + "\n"
      else Render(a).value + "\n"
    case _ =>
      match Render(a)
      case Err(_) => ""
      case Ok(line) => line + "\n"
  }

  /** The attribute lines in list order. */
  function AttrsText(attrs: seq<Attribute>, classMod: bool): string {
    if attrs == [] then ""
    else AttrsText(attrs[..|attrs| - 1], classMod) + AttrText(attrs[|attrs| - 1], classMod)
  }

  /** The failure of the first attribute whose rendering fails, if any. */
  function FirstFailure(attrs: seq<Attribute>): (r: Option<Panic>)
  {
    if attrs == [] then None
    else if FirstFailure(attrs[..|attrs| - 1]).Some? then FirstFailure(attrs[..|attrs| - 1])
    else match Render(attrs[|attrs| - 1])
      case Err(e) => Some(e)
      case Ok(_) => None
  }

  /** The declaration text: a function loses every occurrence of its body's text. */
  function DeclText(d: Declaration): (r: string)
    ensures |r| <= |d.node.text|
    ensures !d.Function? ==> r == d.node.text
  {
    match d
    case Function(_, n) =>
      (match ChildByFieldName(n, "body")
       case None => n.text
       case Some(b) =>
         if b.text == "" then n.text
         else
           ReplaceAllByEmptyShrinks(n.text, b.text);
           ReplaceAll(n.text, b.text, ""))
    case Variable(_, n) => n.text
    case Other(n) => n.text
  }

  /** `Chunk::to_ldoc_string`, as a value: it fails at the first attribute that cannot be rendered. */
  function ChunkText(c: Chunk): Result<string, Panic> {
    match FirstFailure(c.attributes)
    case Some(e) => Err(e)
    case None => Ok("\n" + BodyText(c.body) + AttrsText(c.attributes, HasClassMod(c.attributes)) + DeclText(c.decl) + "\n")
  }

  /** `Chunk::to_ldoc_string`: a newline, the body lines, the attribute lines, the declaration (src/chunk.rs:20-71). */
  method ToLdocString(c: Chunk) returns (r: Result<string, Panic>)
    ensures r == ChunkText(c)
  {
    var body := PushBody(c.body);
    var attrs := PushAttributes(c.attributes, HasClassMod(c.attributes));
    if attrs.Err? {
      return Err(attrs.error);
    }
    var ret := "\n" + body + attrs.value;
    ret := ret + DeclText(c.decl);
    ret := ret + "\n";
    return Ok(ret);
  }

  /** The loop over the body lines (src/chunk.rs:24-28). */
  method PushBody(body: seq<Node>) returns (ret: string)
    ensures ret == BodyText(body)
  {
    ret := "";
    for i := 0 to |body|
      invariant ret == BodyText(body[..i])
    {
      TakeSnoc(body, i);
      ret := ret + body[i].text;
      ret := ret + "\n";
    }
    assert body[..|body|] == body;
  }

  /**
   * The loop over the attributes (src/chunk.rs:30-51): a `ClassMod` is
   * skipped, a `Class` of a chunk with a `ClassMod` is a `classmod` line,
   * and every other attribute is its rendering, which may fail.
   */
  method PushAttributes(attrs: seq<Attribute>, classMod: bool) returns (r: Result<string, Panic>)
    ensures r == match FirstFailure(attrs) case Some(e) => Err(e) case None => Ok(AttrsText(attrs, classMod))
  {
    var ret := "";
    for j := 0 to |attrs|
      invariant FirstFailure(attrs[..j]).None?
      invariant ret == AttrsText(attrs[..j], classMod)
    {
      var a := attrs[j];
      TakeSnoc(attrs, j);
      AttrsTextSnoc(attrs[..j], a, classMod);
      FirstFailureSnoc(attrs[..j], a);
      AttrTextCases(a, classMod);
      if a == ClassMod {
        AppendEmpty(ret);
        continue;
      }
      var line: string;
      if a.Class? {
        if classMod {
          line := "---@classmod " + a.ty;
        } else {
          line := Render(a).value;
        }
      } else {
        var rendered := Render(a);
        if rendered.Err? {
          LaterAttrsKeepFailure(attrs, j + 1);
          return Err(rendered.error);
        }
        line := rendered.value;
      }
      AppendAssoc(ret, line, "\n");
      ret := ret + line;
      ret := ret + "\n";
    }
    assert attrs[..|attrs|] == attrs;
    return Ok(ret);
  }

  /** `AttrText` by the three kinds of attribute the chunk renderer tells apart. */
  lemma AttrTextCases(a: Attribute, classMod: bool)
    ensures a.Class? && classMod ==> AttrText(a, classMod) == "---@classmod " + a.ty + "\n"
    ensures a.Class? && !classMod ==> AttrText(a, classMod) == Render(a).value + "\n"
    ensures !a.Class? && a != ClassMod && Render(a).Ok? ==> AttrText(a, classMod) == Render(a).value + "\n"
  {
  }

  /** A failure among the first `j` attributes is the failure of the whole chunk. */
  lemma FailureDecidesChunk(c: Chunk, j: nat)
    requires j <= |c.attributes| && FirstFailure(c.attributes[..j]).Some?
    ensures ChunkText(c) == Err(FirstFailure(c.attributes[..j]).value)
  {
    LaterAttrsKeepFailure(c.attributes, j);
  }

  /** One more attribute can only add its own rendering failure. */
  lemma FirstFailureSnoc(xs: seq<Attribute>, a: Attribute)
    ensures FirstFailure(xs + [a]) ==
      if FirstFailure(xs).Some? then FirstFailure(xs)
      else if Render(a).Err? then Some(Render(a).error) else None
  {
    assert (xs + [a])[..|xs|] == xs;
  }

  /** Every attribute that produces output produces a doc-comment line ending with a newline. */
  lemma AttrTextIsLine(a: Attribute, classMod: bool)
    requires AttrText(a, classMod) != ""
    ensures var r := AttrText(a, classMod); r[|r| - 1] == '\n' && StartsWith(r, "---")
  {
    var r := AttrText(a, classMod);
    if a.Class? && classMod {
      assert r == "---@classmod " + a.ty + "\n";
      assert r[..3] == "---";
    } else {
      var line := Render(a).value;
      assert r == line + "\n";
      assert r[..3] == line[..3];
    }
  }

  /** Once a prefix of the attributes has a failure, every longer prefix has the same one. */
  lemma {:induction false} LaterAttrsKeepFailure(attrs: seq<Attribute>, j: nat)
    requires j <= |attrs| && FirstFailure(attrs[..j]).Some?
    ensures FirstFailure(attrs) == FirstFailure(attrs[..j])
    decreases |attrs| - j
  {
    if j < |attrs| {
      assert attrs[..j + 1][..j] == attrs[..j];
      LaterAttrsKeepFailure(attrs, j + 1);
    } else {
      assert attrs[..j] == attrs;
    }
  }

  // ---- properties of the rendering ----

  /** There is no first failure exactly when no attribute is an `Alias` or a `NoDoc`. */
  lemma {:induction false} FirstFailureNone(attrs: seq<Attribute>)
    ensures FirstFailure(attrs).None? <==> forall k :: 0 <= k < |attrs| ==> !attrs[k].Alias? && !attrs[k].NoDoc?
  {
    if attrs != [] {
      var init, last := attrs[..|attrs| - 1], attrs[|attrs| - 1];
      FirstFailureNone(init);
      assert attrs == init + [last];
      FirstFailureSnoc(init, last);
      if FirstFailure(attrs).None? {
        forall k | 0 <= k < |attrs|
          ensures !attrs[k].Alias? && !attrs[k].NoDoc?
        {
          if k < |init| {
            assert attrs[k] == init[k];
          }
        }
      } else if FirstFailure(init).Some? {
        var k :| 0 <= k < |init| && (init[k].Alias? || init[k].NoDoc?);
        assert attrs[k] == init[k];
      }
    }
  }

  /** The first failure is the rendering failure of an attribute all of whose predecessors render. */
  lemma {:induction false} FirstFailureIsFirstUnrenderable(attrs: seq<Attribute>)
    requires FirstFailure(attrs).Some?
    ensures exists k ::
      0 <= k < |attrs| && Render(attrs[k]) == Err(FirstFailure(attrs).value) && forall m :: 0 <= m < k ==> Render(attrs[m]).Ok?
  {
    var init := attrs[..|attrs| - 1];
    if FirstFailure(init).Some? {
      FirstFailureIsFirstUnrenderable(init);
      var k :| 0 <= k < |init| && Render(init[k]) == Err(FirstFailure(init).value)
        && forall m :: 0 <= m < k ==> Render(init[m]).Ok?;
      assert forall m :: 0 <= m <= k ==> init[m] == attrs[m];
    } else {
      FirstFailureNone(init);
      assert forall m :: 0 <= m < |init| ==> init[m] == attrs[m];
      assert Render(attrs[|init|]) == Err(FirstFailure(attrs).value);
    }
  }

  /** A rendered chunk starts with a newline and ends with its declaration text and a newline. */
  lemma ChunkFrame(c: Chunk)
    requires ChunkText(c).Ok?
    ensures StartsWith(ChunkText(c).value, "\n")
    ensures EndsWith(ChunkText(c).value, DeclText(c.decl) + "\n")
  {
    var t := ChunkText(c).value;
    var tail := DeclText(c.decl) + "\n";
    var head := "\n" + BodyText(c.body) + AttrsText(c.attributes, HasClassMod(c.attributes));
    assert t == head + tail;
    assert t[|t| - |tail|..] == tail;
  }

  /** Rendering a chunk fails exactly when some attribute is an `Alias` or a `NoDoc`. */
  lemma ChunkTextFails(c: Chunk)
    ensures ChunkText(c).Err? <==> exists k :: 0 <= k < |c.attributes| && (c.attributes[k].Alias? || c.attributes[k].NoDoc?)
  {
    FirstFailureNone(c.attributes);
  }

  /** Splitting the attributes splits their text. */
  lemma {:induction false} AttrsTextAppend(xs: seq<Attribute>, ys: seq<Attribute>, classMod: bool)
    ensures AttrsText(xs + ys, classMod) == AttrsText(xs, classMod) + AttrsText(ys, classMod)
    decreases |ys|
  {
    if ys == [] {
      AppendEmpty(xs);
      AppendEmpty(AttrsText(xs, classMod));
    } else {
      var init, last := ys[..|ys| - 1], ys[|ys| - 1];
      AppendInit(xs, ys);
      AttrsTextAppend(xs, init, classMod);
      AppendAssoc(AttrsText(xs, classMod), AttrsText(init, classMod), AttrText(last, classMod));
    }
  }

  /** One more attribute adds its own output. */
  lemma AttrsTextSnoc(xs: seq<Attribute>, a: Attribute, classMod: bool)
    ensures AttrsText(xs + [a], classMod) == AttrsText(xs, classMod) + AttrText(a, classMod)
  {
    assert (xs + [a])[..|xs|] == xs;
  }

  /** A `ClassMod` attribute adds no text, wherever it stands in the list. */
  lemma ClassModAddsNothing(xs: seq<Attribute>, ys: seq<Attribute>, classMod: bool)
    ensures AttrsText(xs + [ClassMod] + ys, classMod) == AttrsText(xs + ys, classMod)
  {
    AttrsTextSnoc([], ClassMod, classMod);
    AttrsTextAppend(xs, [ClassMod], classMod);
    AttrsTextAppend(xs + [ClassMod], ys, classMod);
    AttrsTextAppend(xs, ys, classMod);
  }

  /** The body lines appear verbatim and in order, each followed by a newline. */
  lemma {:induction false} BodyTextVerbatim(xs: seq<Node>, n: Node, ys: seq<Node>)
    ensures BodyText(xs + [n] + ys) == BodyText(xs) + n.text + "\n" + BodyText(ys)
    decreases |ys|
  {
    if ys == [] {
      assert xs + [n] + ys == xs + [n];
      assert (xs + [n])[..|xs|] == xs;
    } else {
      var init := ys[..|ys| - 1];
      assert (xs + [n] + ys)[..|xs + [n] + ys| - 1] == xs + [n] + init;
      BodyTextVerbatim(xs, n, init);
    }
  }

  /**
   * A `Class` attribute renders as a `classmod` line when the chunk has a
   * `ClassMod` anywhere among its attributes, and as `---` and a `module`
   * line otherwise.
   */
  lemma ClassRendering(xs: seq<Attribute>, ty: string, ys: seq<Attribute>)
    ensures var attrs := xs + [Class(ty)] + ys;
      var cm := HasClassMod(attrs);
      AttrsText(attrs, cm) ==
        AttrsText(xs, cm)
        + (if cm then "---@classmod " + ty + "\n" else "---\n---@module " + ty + "\n")
        + AttrsText(ys, cm)
  {
    var attrs := xs + [Class(ty)] + ys;
    var cm := HasClassMod(attrs);
    AttrsTextSnoc([], Class(ty), cm);
    AttrsTextAppend(xs, [Class(ty)], cm);
    AttrsTextAppend(xs + [Class(ty)], ys, cm);
  }

  /** A Variable or Other declaration is emitted verbatim; so is a function without a body field. */
  lemma DeclTextVerbatim(d: Declaration)
    requires !d.Function? || ChildByFieldName(d.node, "body").None?
    ensures DeclText(d) == d.node.text
  {
  }

  /**
   * A function whose text is `pre`, then its body's text, then `post`, where
   * the body's text first occurs at the body: the body is deleted, and so is
   * every later occurrence of its text in `post` (src/chunk.rs:56-58). A body
   * with empty text leaves the declaration as it is.
   */
  lemma FunctionBodyRemoved(d: Declaration, pre: string, post: string)
    requires d.Function? && ChildByFieldName(d.node, "body").Some?
    requires var b := ChildByFieldName(d.node, "body").value.text;
      d.node.text == pre + b + post && forall i :: 0 <= i < |pre| ==> !StartsAt(d.node.text, i, b)
    ensures var b := ChildByFieldName(d.node, "body").value.text;
      DeclText(d) == pre + (if b == "" then post else ReplaceAll(post, b, ""))
    ensures var b := ChildByFieldName(d.node, "body").value.text;
      b != "" && (forall i: nat :: !StartsAt(post, i, b)) ==> DeclText(d) == pre + post
  {
    var b := ChildByFieldName(d.node, "body").value.text;
    if b == "" {
      assert d.node.text == pre + post;
    } else {
      ReplaceAllSplit(pre, b, post, "");
      assert pre + "" + ReplaceAll(post, b, "") == pre + ReplaceAll(post, b, "");
      if forall i: nat :: !StartsAt(post, i, b) {
        ReplaceAllAbsent(post, b, "");
      }
    }
  }
}
