/**
 * The concrete syntax tree that the port queries read: tagged internal nodes
 * whose child slots may be empty, and leaf tokens. The tree is an immutable
 * value; a "reference" to a subtree is the subtree itself, and where it sits
 * in the tree is described by a path of child positions.
 */
module SyntaxTree {
  import opened Wrappers

  /** The grammar productions the port queries look at; every other one is `OtherNode`. */
  datatype NodeEnum =
    | PortDeclaration
    | ModulePortDeclaration
    | PortReference
    | Port
    | PortItem
    | ActualNamedPort
    | DataTypeImplicitBasicIdDimensions
    | DataType
    | UnpackedDimensions
    | IdentifierUnpackedDimensions
    | UnqualifiedId
    | OtherNode(production: nat)

  /** A lexical token: its token kind and its text. */
  datatype Token = Token(kind: nat, text: string)

  /** A symbol of the tree: a leaf token, or a node with ordered, possibly empty, child slots. */
  datatype Tree =
    | Leaf(token: Token)
    | Node(tag: NodeEnum, children: seq<Option<Tree>>)

  /** The symbols a `SyntaxTreeLeaf*` can point to. */
  type LeafTree = t: Tree | t.Leaf? witness Leaf(Token(0, ""))

  /** The symbols a `SyntaxTreeNode*` can point to. */
  type NodeTree = t: Tree | t.Node? witness Node(OtherNode(0), [])

  /** The number of child slots of a symbol (none for a leaf). */
  function Arity(t: Tree): nat {
    if t.Node? then |t.children| else 0
  }

  /** `t` is a node tagged `tag`. */
  predicate HasTag(t: Tree, tag: NodeEnum) {
    t.Node? && t.tag == tag
  }

  /**
   * The subtree reached from `t` by following the child positions in `path`,
   * or `None` when a position is out of range, a slot is empty or a leaf is
   * asked for a child.
   */
  function At(t: Tree, path: seq<nat>): Option<Tree>
    decreases |path|
  {
    if path == [] then Some(t)
    else match t
      case Leaf(_) => None
      case Node(_, children) =>
        if path[0] < |children| && children[path[0]].Some?
        then At(children[path[0]].value, path[1..])
        else None
  }

  /** The subtree at `path` exists and is a node tagged `tag`. */
  predicate HasTagAt(t: Tree, path: seq<nat>, tag: NodeEnum) {
    At(t, path).Some? && HasTag(At(t, path).value, tag)
  }

  /** `x` occurs somewhere in `t`, `t` itself included. */
  ghost predicate Reachable(t: Tree, x: Tree) {
    exists path :: At(t, path) == Some(x)
  }

  /** `x` occurs strictly below the root of `t`. */
  ghost predicate ProperDescendant(t: Tree, x: Tree) {
    exists path :: |path| > 0 && At(t, path) == Some(x)
  }

  /** Following `p` and then `q` is following `p + q`. */
  lemma {:induction false} AtConcat(t: Tree, p: seq<nat>, q: seq<nat>)
    requires At(t, p).Some?
    ensures At(t, p + q) == At(At(t, p).value, q)
    decreases |p|
  {
    if p != [] {
      var c := t.children[p[0]].value;
      assert (p + q)[0] == p[0] && (p + q)[1..] == p[1..] + q;
      AtConcat(c, p[1..], q);
    } else {
      assert p + q == q;
    }
  }
}
