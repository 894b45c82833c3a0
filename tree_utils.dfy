/**
 * Positional access to the children of a node, failing soft: the wrong
 * parent tag, a position past the last slot, an empty slot, or a child of
 * the wrong shape all give `None`.
 */
module TreeUtils {
  import opened Wrappers
  import opened SyntaxTree

  /** The child in slot `position` of a node tagged `parentTag`. */
  function GetSubtreeAsSymbol(s: Tree, parentTag: NodeEnum, position: nat): (r: Option<Tree>)
    ensures r.Some? <==> HasTag(s, parentTag) && At(s, [position]).Some?
    ensures r.Some? ==> r == At(s, [position])
  {
    match s
    case Leaf(_) => None
    case Node(tag, children) =>
      if tag == parentTag && position < |children| then children[position] else None
  }

  /** As `GetSubtreeAsSymbol`, and the child must be a node tagged `childTag`. */
  function GetSubtreeAsNode(s: Tree, parentTag: NodeEnum, position: nat, childTag: NodeEnum): (r: Option<NodeTree>)
    ensures r.Some? <==> HasTag(s, parentTag) && HasTagAt(s, [position], childTag)
    ensures r.Some? ==> r == At(s, [position]) && HasTag(r.value, childTag)
  {
    match GetSubtreeAsSymbol(s, parentTag, position)
    case None => None
    case Some(c) => if HasTag(c, childTag) then Some(c) else None
  }

  /** As `GetSubtreeAsSymbol`, and the child must be a leaf. */
  function GetSubtreeAsLeaf(s: Tree, parentTag: NodeEnum, position: nat): (r: Option<LeafTree>)
    ensures r.Some? <==> HasTag(s, parentTag) && At(s, [position]).Some? && At(s, [position]).value.Leaf?
    ensures r.Some? ==> r == At(s, [position])
  {
    match GetSubtreeAsSymbol(s, parentTag, position)
    case None => None
    case Some(c) => if c.Leaf? then Some(c) else None
  }
}
