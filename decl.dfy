/**
 * What a documented syntax node declares (src/main.rs:198-203) and how the
 * declaration and its name are read off the node (src/main.rs:292-362).
 */
module Decl {
  import opened Wrappers
  import opened Text
  import opened Tree
  import opened Failures

  datatype Declaration =
    | Function(fname: Option<string>, node: Node)
    | Variable(vname: string, node: Node)
    | Other(node: Node)

  /** The `name` field of a `variable_list` child, if both are there. */
  function VariableListName(n: Node): (r: Option<Node>)
    ensures r.Some? ==> exists k :: 0 <= k < |n.children| && n.children[k].node.kind == "variable_list"
  {
    match ChildOfKind(n, "variable_list")
    case None => None
    case Some(v) => ChildByFieldName(v, "name")
  }

  /** `Variable(name)` from a variable list's `name` field; a list without one is a failure. */
  function VariableFrom(v: Node, n: Node): (r: Result<Declaration, Panic>)
    ensures r.Ok? <==> ChildByFieldName(v, "name").Some?
    ensures r.Ok? ==> r.value == Variable(ChildByFieldName(v, "name").value.text, n)
    ensures r.Err? ==> r.error == VarDeclHadNoName
  {
    match ChildByFieldName(v, "name")
    case None => Err(VarDeclHadNoName)
    case Some(name) => Ok(Variable(name.text, n))
  }

  /** `node_to_decl` */
  function NodeToDecl(n: Node): (r: Result<Declaration, Panic>)
    ensures r.Ok? ==> r.value.node == n
    ensures r.Ok? && r.value.Function? ==> n.kind == "function_declaration" && r.value.fname.Some?
    ensures r.Ok? && r.value.Variable? ==> n.kind == "variable_declaration" || n.kind == "assignment_statement"
    ensures n.kind != "function_declaration" && n.kind != "variable_declaration" && n.kind != "assignment_statement"
      ==> r == Ok(Other(n))
  {
    if n.kind == "variable_declaration" then
      match ChildOfKind(n, "assignment_statement")
      case Some(asm) =>
        (match VariableListName(asm)
         case None => Err(VarDeclHadNoName)
         case Some(name) => Ok(Variable(name.text, n)))
      case None =>
        (match ChildOfKind(n, "variable_list")
         case Some(v) => VariableFrom(v, n)
         case None => Ok(Other(n)))
    else if n.kind == "assignment_statement" then
      match ChildOfKind(n, "variable_list")
      case Some(v) => VariableFrom(v, n)
      case None => Ok(Other(n))
    else if n.kind == "function_declaration" then
      match ChildByFieldName(n, "name")
      case None => Ok(Other(n))
      case Some(name) =>
        if EndsWith(name.kind, "index_expression") then
          match ChildByFieldName(name, "table")
          case None => Err(NoTable)
          case Some(tbl) => Ok(Function(Some(tbl.text), n))
        else if name.kind == "identifier" then Ok(Function(Some(name.text), n))
        else Err(NameKindUnsupported)
    else Ok(Other(n))
  }

  /** The name a chunk is grouped by: a named function's or a variable's (src/main.rs:129, 138, 157). */
  function DeclName(d: Declaration): (r: Option<string>)
    ensures r.None? <==> d.Other? || d == Function(None, d.node)
  {
    match d
    case Function(Some(name), _) => Some(name)
    case Variable(name, _) => Some(name)
    case _ => None
  }

  // ---- properties of the classification ----

  /** A function declaration's outcome is decided by its `name` field. */
  lemma FunctionDeclCases(n: Node)
    requires n.kind == "function_declaration"
    ensures ChildByFieldName(n, "name").None? ==> NodeToDecl(n) == Ok(Other(n))
    ensures var nm := ChildByFieldName(n, "name");
      nm.Some? && nm.value.kind == "identifier" ==> NodeToDecl(n) == Ok(Function(Some(nm.value.text), n))
    ensures var nm := ChildByFieldName(n, "name");
      nm.Some? && EndsWith(nm.value.kind, "index_expression") ==>
        NodeToDecl(n) == (match ChildByFieldName(nm.value, "table")
                          case None => Err(NoTable)
                          case Some(t) => Ok(Function(Some(t.text), n)))
    ensures var nm := ChildByFieldName(n, "name");
      nm.Some? && nm.value.kind != "identifier" && !EndsWith(nm.value.kind, "index_expression") ==>
        NodeToDecl(n) == Err(NameKindUnsupported)
  {
  }

  /**
   * A `variable_declaration` (src/main.rs:296-322): through its
   * `assignment_statement` child when it has one, else through its own
   * `variable_list`, else `Other`; a list without a `name` field aborts.
   */
  lemma VariableDeclCases(n: Node)
    requires n.kind == "variable_declaration"
    ensures var asm := ChildOfKind(n, "assignment_statement");
      asm.Some? && ChildOfKind(asm.value, "variable_list").None? ==> NodeToDecl(n) == Err(VarDeclHadNoName)
    ensures var asm := ChildOfKind(n, "assignment_statement");
      asm.Some? && ChildOfKind(asm.value, "variable_list").Some? ==>
        var name := ChildByFieldName(ChildOfKind(asm.value, "variable_list").value, "name");
        NodeToDecl(n) == if name.Some? then Ok(Variable(name.value.text, n)) else Err(VarDeclHadNoName)
    ensures var list := ChildOfKind(n, "variable_list");
      ChildOfKind(n, "assignment_statement").None? && list.Some? ==>
        var name := ChildByFieldName(list.value, "name");
        NodeToDecl(n) == if name.Some? then Ok(Variable(name.value.text, n)) else Err(VarDeclHadNoName)
    ensures ChildOfKind(n, "assignment_statement").None? && ChildOfKind(n, "variable_list").None? ==>
      NodeToDecl(n) == Ok(Other(n))
  {
  }

  /**
   * An `assignment_statement` (src/main.rs:324-338): a variable named by its
   * `variable_list`'s `name` field, the abort when that field is missing, and
   * `Other` without a list.
   */
  lemma AssignmentCases(n: Node)
    requires n.kind == "assignment_statement"
    ensures var list := ChildOfKind(n, "variable_list");
      list.Some? ==>
        var name := ChildByFieldName(list.value, "name");
        NodeToDecl(n) == if name.Some? then Ok(Variable(name.value.text, n)) else Err(VarDeclHadNoName)
    ensures ChildOfKind(n, "variable_list").None? ==> NodeToDecl(n) == Ok(Other(n))
  {
  }

  /** A successfully classified node always has a name when it is a function: `Function(None)` never arises here. */
  lemma DeclaredFunctionsAreNamed(n: Node)
    requires NodeToDecl(n).Ok?
    ensures NodeToDecl(n).value.Function? ==> DeclName(NodeToDecl(n).value).Some?
    ensures DeclName(NodeToDecl(n).value).None? <==> NodeToDecl(n).value.Other?
  {
  }

  /** A failure is exactly a missing variable name, a missing table, or an unsupported name kind. */
  lemma NodeToDeclFailures(n: Node)
    requires NodeToDecl(n).Err?
    ensures n.kind == "function_declaration" ==> NodeToDecl(n).error in {NoTable, NameKindUnsupported}
    ensures n.kind != "function_declaration" ==> NodeToDecl(n).error == VarDeclHadNoName
    ensures n.kind in {"function_declaration", "variable_declaration", "assignment_statement"}
  {
  }
}
