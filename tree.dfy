/**
 * The part of a concrete syntax tree the tool reads. The parser that builds
 * it is an external library and is not modelled; a node is reduced to its
 * kind, the row its range starts on, the source text it covers and its
 * children, each child possibly tagged with the grammar field it fills.
 */
module Tree {
  import opened Wrappers

  datatype Node = Node(kind: string, startLine: nat, text: string, children: seq<Child>)

  datatype Child = Child(field: Option<string>, node: Node)

  /** Index of the first child tagged with field `name`. */
  function FieldIndex(cs: seq<Child>, name: string): (r: Option<nat>)
    ensures r.Some? ==> r.value < |cs| && cs[r.value].field == Some(name)
    ensures r.Some? ==> forall k :: 0 <= k < r.value ==> cs[k].field != Some(name)
    ensures r.None? ==> forall k :: 0 <= k < |cs| ==> cs[k].field != Some(name)
  {
    if cs == [] then None
    else if cs[0].field == Some(name) then Some(0)
    else match FieldIndex(cs[1..], name)
      case None => None
      case Some(k) => Some(k + 1)
  }

  /** `child_by_field_name`: the first child filling field `name`, if any. */
  function ChildByFieldName(n: Node, name: string): (r: Option<Node>)
    ensures r.Some? <==> exists k :: 0 <= k < |n.children| && n.children[k].field == Some(name)
  {
    match FieldIndex(n.children, name)
    case None => None
    case Some(k) => Some(n.children[k].node)
  }

  /** Index of the first child whose node has kind `kind`. */
  function KindIndex(cs: seq<Child>, kind: string): (r: Option<nat>)
    ensures r.Some? ==> r.value < |cs| && cs[r.value].node.kind == kind
    ensures r.Some? ==> forall k :: 0 <= k < r.value ==> cs[k].node.kind != kind
    ensures r.None? ==> forall k :: 0 <= k < |cs| ==> cs[k].node.kind != kind
  {
    if cs == [] then None
    else if cs[0].node.kind == kind then Some(0)
    else match KindIndex(cs[1..], kind)
      case None => None
      case Some(k) => Some(k + 1)
  }

  /** `children().find(|c| c.kind() == kind)`: the first child of that kind, if any. */
  function ChildOfKind(n: Node, kind: string): (r: Option<Node>)
    ensures r.Some? ==> r.value.kind == kind
    ensures r.None? <==> forall k :: 0 <= k < |n.children| ==> n.children[k].node.kind != kind
  {
    match KindIndex(n.children, kind)
    case None => None
    case Some(k) => Some(n.children[k].node)
  }
}
