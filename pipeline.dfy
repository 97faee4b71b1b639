/**
 * One Lua file from its text to its output text (src/main.rs:53-175): the
 * text fixes before parsing, then assembly, regrouping and rendering of the
 * chunks. Reading, parsing and writing files are outside the model; the
 * parsed top-level nodes are a parameter.
 */
module Pipeline {
  import opened Wrappers
  import opened Text
  import opened Tree
  import opened Failures
  import opened Chunks
  import opened Assembly
  import opened Grouping

  /** Every `?` becomes `|nil`, then every `@type` is deleted (src/main.rs:53-57). */
  function Preprocess(s: string): string {
    ReplaceAll(ReplaceAll(s, "?", "|nil"), "@type", "")
  }

  /** No `?` survives the text fixes. */
  lemma PreprocessRemovesQuestionMarks(s: string)
    ensures '?' !in Preprocess(s)
  {
    ReplaceAllRemovesChar(s, '?', "|nil");
    ReplaceAllKeepsOut(ReplaceAll(s, "?", "|nil"), "@type", "", '?');
  }

  /** Text with neither `?` nor `@` is left as it is. */
  lemma PreprocessKeepsPlainText(s: string)
    requires '?' !in s && '@' !in s
    ensures Preprocess(s) == s
  {
    forall i: nat
      ensures !StartsAt(s, i, "?")
    {
      NotStartsAt(s, i, "?");
    }
    ReplaceAllAbsent(s, "?", "|nil");
    forall i: nat
      ensures !StartsAt(s, i, "@type")
    {
      NotStartsAt(s, i, "@type");
    }
    ReplaceAllAbsent(s, "@type", "");
  }

  /** The first `?` becomes `|nil`, and the scan for `?` goes on after it. */
  lemma QuestionMarkReplaced(pre: string, post: string)
    requires '?' !in pre
    ensures ReplaceAll(pre + "?" + post, "?", "|nil") == pre + "|nil" + ReplaceAll(post, "?", "|nil")
  {
    var s := pre + "?" + post;
    forall i | 0 <= i < |pre|
      ensures !StartsAt(s, i, "?")
    {
      assert s[i] == pre[i];
      NotStartsAt(s, i, "?");
    }
    ReplaceAllSplit(pre, "?", post, "|nil");
  }

  /**
   * In text without `?`, the first `@type` is deleted, and the scan for
   * `@type` resumes after it: the text before it is not looked at again,
   * even where it joins what follows into a new `@type`.
   */
  lemma PreprocessDeletesType(pre: string, post: string)
    requires '?' !in pre && '?' !in post
    requires forall i :: 0 <= i < |pre| ==> !StartsAt(pre + "@type" + post, i, "@type")
    ensures Preprocess(pre + "@type" + post) == pre + ReplaceAll(post, "@type", "")
  {
    var s := pre + "@type" + post;
    assert '?' !in pre + "@type";
    NoQuestionMark(s);
    ReplaceAllSplit(pre, "@type", post, "");
    assert pre + "" + ReplaceAll(post, "@type", "") == pre + ReplaceAll(post, "@type", "");
  }

  /** For example, deleting the inner `@type` of `@ty@typepe` leaves a new `@type`. */
  lemma PreprocessIsSinglePass()
    ensures Preprocess("@ty@typepe") == "@type"
  {
    var pre, post := "@ty", "pe";
    var s := pre + "@type" + post;
    assert s == "@ty@typepe";
    assert !StartsAt(s, 0, "@type") by {
      assert s[..5][3] != "@type"[3];
    }
    NotStartsAt(s, 1, "@type");
    NotStartsAt(s, 2, "@type");
    PreprocessDeletesType(pre, post);
    assert ReplaceAll(post, "@type", "") == post;
  }

  /** Text without `?` passes the first fix unchanged. */
  lemma NoQuestionMark(t: string)
    requires '?' !in t
    ensures ReplaceAll(t, "?", "|nil") == t
  {
    forall i: nat
      ensures !StartsAt(t, i, "?")
    {
      NotStartsAt(t, i, "?");
    }
    ReplaceAllAbsent(t, "?", "|nil");
  }

  /** The rendering of every chunk, by index. */
  function Rendered(cs: seq<Chunk>): (r: seq<Result<string, Panic>>)
    ensures |r| == |cs| && forall i :: 0 <= i < |cs| ==> r[i] == ChunkText(cs[i])
  {
    seq(|cs|, i requires 0 <= i < |cs| => ChunkText(cs[i]))
  }

  /** The texts `order` names, joined in that order; the first failure met decides a failure. */
  function Join(texts: seq<Result<string, Panic>>, order: seq<nat>): Result<string, Panic>
    requires forall i :: 0 <= i < |order| ==> order[i] < |texts|
  {
    if order == [] then Ok("")
    else
      match Join(texts, order[..|order| - 1])
      case Err(e) => Err(e)
      case Ok(text) =>
        match texts[order[|order| - 1]]
        case Err(e) => Err(e)
        case Ok(t) => Ok(text + t)
  }

  /** The output of the chunks `order` names, in that order. */
  function RenderOrder(cs: seq<Chunk>, order: seq<nat>): Result<string, Panic>
    requires Indices(cs, order)
  {
    Join(Rendered(cs), order)
  }

  /** The output loops of src/main.rs:156-175: every chunk's text pushed onto the file's output. */
  method WriteChunks(cs: seq<Chunk>, order: seq<nat>) returns (r: Result<string, Panic>)
    requires Indices(cs, order)
    ensures r == RenderOrder(cs, order)
  {
    ghost var texts := Rendered(cs);
    var ldocText := "";
    for j := 0 to |order|
      invariant Join(texts, order[..j]) == Ok(ldocText)
    {
      TakeSnoc(order, j);
      var text := ToLdocString(cs[order[j]]);
      assert text == texts[order[j]];
      if text.Err? {
        JoinKeepsFailure(texts, order, j + 1);
        return Err(text.error);
      }
      ldocText := ldocText + text.value;
    }
    assert order[..|order|] == order;
    return Ok(ldocText);
  }

  /** Once a prefix of the order fails, the whole order fails the same way. */
  lemma {:induction false} JoinKeepsFailure(texts: seq<Result<string, Panic>>, order: seq<nat>, j: nat)
    requires forall i :: 0 <= i < |order| ==> order[i] < |texts|
    requires j <= |order| && Join(texts, order[..j]).Err?
    ensures Join(texts, order) == Join(texts, order[..j])
    decreases |order| - j
  {
    if j < |order| {
      TakeSnoc(order, j);
      JoinKeepsFailure(texts, order, j + 1);
    } else {
      assert order[..j] == order;
    }
  }

  /** Joining succeeds exactly when every text it names is there. */
  lemma {:induction false} JoinOk(texts: seq<Result<string, Panic>>, order: seq<nat>)
    requires forall i :: 0 <= i < |order| ==> order[i] < |texts|
    ensures Join(texts, order).Ok? <==> forall i :: 0 <= i < |order| ==> texts[order[i]].Ok?
  {
    if order != [] {
      var init := order[..|order| - 1];
      JoinOk(texts, init);
      assert forall i :: 0 <= i < |init| ==> init[i] == order[i];
    }
  }

  /** Rendering an order succeeds exactly when every chunk it names can be rendered. */
  lemma RenderOrderOk(cs: seq<Chunk>, order: seq<nat>)
    requires Indices(cs, order)
    ensures RenderOrder(cs, order).Ok? <==> forall i :: 0 <= i < |order| ==> ChunkText(cs[order[i]]).Ok?
  {
    JoinOk(Rendered(cs), order);
  }

  /** The join of a concatenated order is the concatenated join. */
  lemma {:induction false} JoinAppend(texts: seq<Result<string, Panic>>, xs: seq<nat>, ys: seq<nat>)
    requires forall i :: 0 <= i < |xs| ==> xs[i] < |texts|
    requires forall i :: 0 <= i < |ys| ==> ys[i] < |texts|
    requires Join(texts, xs).Ok? && Join(texts, ys).Ok?
    ensures forall i :: 0 <= i < |xs + ys| ==> (xs + ys)[i] < |texts|
    ensures Join(texts, xs + ys) == Ok(Join(texts, xs).value + Join(texts, ys).value)
    decreases |ys|
  {
    if ys == [] {
      AppendEmpty(xs);
      AppendEmpty(Join(texts, xs).value);
    } else {
      var init, last := ys[..|ys| - 1], ys[|ys| - 1];
      AppendInit(xs, ys);
      JoinAppend(texts, xs, init);
      AppendAssoc(Join(texts, xs).value, Join(texts, init).value, texts[last].value);
    }
  }

  /** The output of a concatenated order is the concatenated output. */
  lemma RenderOrderAppend(cs: seq<Chunk>, xs: seq<nat>, ys: seq<nat>)
    requires Indices(cs, xs) && Indices(cs, ys)
    requires RenderOrder(cs, xs).Ok? && RenderOrder(cs, ys).Ok?
    ensures Indices(cs, xs + ys)
    ensures RenderOrder(cs, xs + ys) == Ok(RenderOrder(cs, xs).value + RenderOrder(cs, ys).value)
  {
    JoinAppend(Rendered(cs), xs, ys);
  }

  /** The output of a file's chunks: regrouped, then rendered. */
  function OutputOf(cs: seq<Chunk>): Result<string, Panic> {
    RegroupMembers(cs);
    RenderOrder(cs, RegroupSpec(cs))
  }

  /** The output loops of src/main.rs:156-175 on the regrouped chunks. */
  method Output(cs: seq<Chunk>) returns (r: Result<string, Panic>)
    ensures r == OutputOf(cs)
  {
    var order := Regroup(cs);
    RegroupMembers(cs);
    r := WriteChunks(cs, order);
  }

  /** No chunk that can reach the output loops has an `Alias` attribute, so rendering cannot fail. */
  lemma OutputOk(cs: seq<Chunk>)
    requires forall i, k :: 0 <= i < |cs| && 0 <= k < |cs[i].attributes| ==> !cs[i].attributes[k].Alias?
    ensures OutputOf(cs).Ok?
  {
    RegroupMembers(cs);
    var order := RegroupSpec(cs);
    forall i | 0 <= i < |order|
      ensures ChunkText(cs[order[i]]).Ok?
    {
      assert order[i] in order;
      ChunkTextFails(cs[order[i]]);
    }
    RenderOrderOk(cs, order);
  }

  /** The output text of one file whose top-level nodes are `nodes`. */
  function FileOutput(nodes: seq<Node>, isNoDoc: string -> bool): Result<string, Panic> {
    match AssembleSpec(nodes, isNoDoc)
    case Err(e) => Err(e)
    case Ok(cs) => OutputOf(cs)
  }

  /** The work done on one parsed file (src/main.rs:69-175). */
  method ProcessFile(nodes: seq<Node>, isNoDoc: string -> bool) returns (r: Result<string, Panic>)
    ensures r == FileOutput(nodes, isNoDoc)
  {
    var chunks := AssembleChunks(nodes, isNoDoc);
    if chunks.Err? {
      return Err(chunks.error);
    }
    r := Output(chunks.value);
  }

  /**
   * A file whose chunks are assembled without failure is always rendered
   * without failure: the chunks that could not be rendered (an `Alias` or a
   * `NoDoc`) never reach the output loops.
   */
  lemma AssembledFileRenders(nodes: seq<Node>, isNoDoc: string -> bool)
    requires AssembleSpec(nodes, isNoDoc).Ok?
    ensures FileOutput(nodes, isNoDoc).Ok?
  {
    RunInRange(nodes, |nodes|);
    AssembledHaveNoAlias(nodes, Groups(nodes), isNoDoc);
    OutputOk(AssembleSpec(nodes, isNoDoc).value);
  }
}
