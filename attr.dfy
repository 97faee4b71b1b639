/**
 * Attributes parsed from doc-comment lines and their rendering in the
 * target dialect (src/attr.rs:5-73), plus the alias pre-extractor, which is
 * a stub in the source (src/attr.rs:105-109).
 */
module Attr {
  import opened Wrappers
  import opened Text
  import opened Failures

  /**
   * One attribute line (src/attr.rs:5-28). `NoDoc` is used at
   * src/main.rs:115 and 277 but is not declared among the variants of
   * src/attr.rs:5-28; here it is a marker without payload.
   */
  datatype Attribute =
    | Param(name: string, ty: string, desc: Option<string>)
    | Return(ty: string, rname: Option<string>, desc: Option<string>)
    | Class(ty: string)
    | ClassMod
    | See(link: string, desc: Option<string>)
    | Alias(types: seq<(string, Option<string>)>)
    | NoDoc

  /** A parameter type the target dialect cannot spell is replaced by a plain word. */
  function CollapseType(ty: string): string {
    if StartsWith(ty, "fun(") then "function"
    else if StartsWith(ty, "{") then "table"
    else ty
  }

  /** ` desc` when there is a description, nothing otherwise. */
  function DescSuffix(desc: Option<string>): string {
    match desc
    case None => ""
    case Some(d) => " " + d
  }

  /**
   * `Attribute::to_ldoc_string`. Rendering an `Alias` is `todo!()`, and the
   * match of src/attr.rs:32-72 has no arm for `NoDoc`; both are failures here.
   */
  function Render(a: Attribute): (r: Result<string, Panic>)
    ensures r.Err? <==> a.Alias? || a.NoDoc?
    ensures r.Ok? ==> StartsWith(r.value, "---")
  {
    match a
    case Param(name, ty, desc) => Ok("---@tparam " + CollapseType(ty) + " " + name + DescSuffix(desc))
    case Return(ty, _, desc) => Ok("---@treturn " + ty + DescSuffix(desc))
    case Class(ty) => Ok("---\n---@module " + ty)
    case ClassMod => Ok("---@classmod")
    case See(link, _) => Ok("---@see " + link)
    case Alias(_) => Err(AliasRenderTodo)
    case NoDoc => Err(NoDocHasNoRendering)
  }

  /**
   * `extract_alias`: the source clones the text, splits it into lines and
   * returns no attributes without touching its argument.
   */
  function ExtractAlias(source: string): (r: (seq<Attribute>, string))
    ensures r.0 == [] && r.1 == source
  {
    ([], source)
  }

  // ---- properties of the renderer ----

  /** The collapsed type is `function`, `table` or the type itself, and collapsing twice changes nothing. */
  lemma CollapseTypeShape(ty: string)
    ensures CollapseType(ty) in {"function", "table", ty}
    ensures CollapseType(ty) == ty <==> (!StartsWith(ty, "fun(") && !StartsWith(ty, "{")) || ty == "function" || ty == "table"
    ensures CollapseType(CollapseType(ty)) == CollapseType(ty)
  {
    NotCollapsible("function");
    NotCollapsible("table");
  }

  /** `function` and `table` start with neither `fun(` nor `{`. */
  lemma NotCollapsible(w: string)
    requires w == "function" || w == "table"
    ensures !StartsWith(w, "fun(") && !StartsWith(w, "{")
  {
    assert w[0] != '{';
    if w == "function" {
      assert w[..4][3] == 'c';
    } else {
      assert w[..4][0] == 't';
    }
  }

  /** Two function types, or two table-literal types, render alike however they are nested. */
  lemma ParamCollapseIgnoresStructure(name: string, t1: string, t2: string, desc: Option<string>)
    requires (StartsWith(t1, "fun(") && StartsWith(t2, "fun("))
          || (StartsWith(t1, "{") && StartsWith(t2, "{"))
    ensures Render(Param(name, t1, desc)) == Render(Param(name, t2, desc))
  {
    FirstChar(t1);
    FirstChar(t2);
  }

  /** A type starting with `fun(` does not start with `{`. */
  lemma FirstChar(t: string)
    ensures StartsWith(t, "fun(") ==> t[0] == 'f' && !StartsWith(t, "{")
  {
    if StartsWith(t, "fun(") {
      assert t[0] == t[..4][0];
      assert t[..1][0] == t[0];
    }
  }

  /** A parameter's description adds exactly a blank and the description at the end. */
  lemma ParamDescAppends(name: string, ty: string, d: string)
    ensures Render(Param(name, ty, None)).Ok? && Render(Param(name, ty, Some(d))).Ok?
    ensures Render(Param(name, ty, Some(d))).value == Render(Param(name, ty, None)).value + " " + d
  {
  }

  /** The return name is never emitted, and the return type is never collapsed. */
  lemma ReturnIgnoresName(ty: string, n1: Option<string>, n2: Option<string>, desc: Option<string>)
    ensures Render(Return(ty, n1, desc)) == Render(Return(ty, n2, desc))
    ensures StartsWith(Render(Return(ty, n1, desc)).value, "---@treturn " + ty)
  {
    var r := Render(Return(ty, n1, desc)).value;
    assert r == ("---@treturn " + ty) + DescSuffix(desc);
  }

  /** The see description is never emitted. */
  lemma SeeIgnoresDesc(link: string, d1: Option<string>, d2: Option<string>)
    ensures Render(See(link, d1)) == Render(See(link, d2)) == Ok("---@see " + link)
  {
  }
}
