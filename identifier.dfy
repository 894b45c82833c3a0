/**
 * The identifier helpers the port queries rely on: unwrapping an identifier
 * to its leaf token, and finding the identifier-with-unpacked-dimensions
 * constructs of a declaration.
 */
module Identifier {
  import opened Wrappers
  import opened SyntaxTree
  import opened TreeSearch
  import opened TreeUtils

  /**
   * The leaf token of an identifier: a leaf is its own identifier; an
   * unqualified-identifier wrapper gives the leaf in its first slot; anything
   * else has none.
   */
  function AutoUnwrapIdentifier(s: Tree): (r: Option<LeafTree>)
    ensures s.Leaf? ==> r == Some(s)
    ensures s.Node? ==> (r.Some? <==> HasTag(s, UnqualifiedId) && At(s, [0]).Some? && At(s, [0]).value.Leaf?)
    ensures s.Node? && r.Some? ==> r == At(s, [0])
  {
    match s
    case Leaf(_) => Some(s)
    case Node(_, _) => GetSubtreeAsLeaf(s, UnqualifiedId, 0)
  }

  /** Unwrapping an identifier that is already a plain leaf changes nothing. */
  lemma UnwrapIsIdempotent(s: Tree)
    ensures AutoUnwrapIdentifier(s).Some? ==>
      AutoUnwrapIdentifier(AutoUnwrapIdentifier(s).value) == AutoUnwrapIdentifier(s)
  {
  }

  /** Every identifier-with-unpacked-dimensions construct in `root`, in pre-order. */
  function FindAllIdentifierUnpackedDimensions(root: Tree): (r: seq<Tree>)
    ensures ListsMatchesInPreOrder(root, NodeMatcher(IdentifierUnpackedDimensions), r)
  {
    SearchListsMatchesInPreOrder(root, NodeMatcher(IdentifierUnpackedDimensions));
    SearchSyntaxTree(root, NodeMatcher(IdentifierUnpackedDimensions))
  }

  /** The identifier leaf in slot 0 of an identifier-with-unpacked-dimensions node, unwrapped. */
  function GetSymbolIdentifierFromIdentifierUnpackedDimensions(s: Tree): (r: Option<LeafTree>)
    ensures r.Some? ==> HasTag(s, IdentifierUnpackedDimensions) && At(s, [0]).Some?
    ensures HasTag(s, IdentifierUnpackedDimensions) && At(s, [0]).Some? ==>
      r == AutoUnwrapIdentifier(At(s, [0]).value)
    ensures r.Some? ==> r == At(s, [0]) || r == At(s, [0, 0])
  {
    match GetSubtreeAsSymbol(s, IdentifierUnpackedDimensions, 0)
    case None => None
    case Some(c) => AutoUnwrapIdentifier(c)
  }
}
