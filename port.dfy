/**
 * Queries over the port constructs of Verilog/SystemVerilog syntax trees:
 * finding every port-like construct of a tree, and extracting the direction,
 * identifier, type and dimensions of one of them from its grammar-fixed
 * child slots. Missing or unexpected structure gives `None`.
 */
module VerilogPort {
  import opened Wrappers
  import opened SyntaxTree
  import opened TreeSearch
  import opened TreeUtils
  import opened Identifier

  // ---------------------------------------------------------------------------
  // Finding every construct of one kind

  function FindAllPortDeclarations(root: Tree): (r: seq<Tree>)
    ensures ListsMatchesInPreOrder(root, NodeMatcher(PortDeclaration), r)
    ensures root.Leaf? ==> r == []
  {
    SearchListsMatchesInPreOrder(root, NodeMatcher(PortDeclaration));
    SearchSyntaxTree(root, NodeMatcher(PortDeclaration))
  }

  function FindAllActualNamedPort(root: Tree): (r: seq<Tree>)
    ensures ListsMatchesInPreOrder(root, NodeMatcher(ActualNamedPort), r)
    ensures root.Leaf? ==> r == []
  {
    SearchListsMatchesInPreOrder(root, NodeMatcher(ActualNamedPort));
    SearchSyntaxTree(root, NodeMatcher(ActualNamedPort))
  }

  /** Despite its name, this finds the `Port` nodes (each of which may hold a port reference). */
  function FindAllPortReferences(root: Tree): (r: seq<Tree>)
    ensures ListsMatchesInPreOrder(root, NodeMatcher(Port), r)
    ensures root.Leaf? ==> r == []
  {
    SearchListsMatchesInPreOrder(root, NodeMatcher(Port));
    SearchSyntaxTree(root, NodeMatcher(Port))
  }

  function FindAllTaskFunctionPortDeclarations(root: Tree): (r: seq<Tree>)
    ensures ListsMatchesInPreOrder(root, NodeMatcher(PortItem), r)
    ensures root.Leaf? ==> r == []
  {
    SearchListsMatchesInPreOrder(root, NodeMatcher(PortItem));
    SearchSyntaxTree(root, NodeMatcher(PortItem))
  }

  function FindAllModulePortDeclarations(root: Tree): (r: seq<Tree>)
    ensures ListsMatchesInPreOrder(root, NodeMatcher(ModulePortDeclaration), r)
    ensures root.Leaf? ==> r == []
  {
    SearchListsMatchesInPreOrder(root, NodeMatcher(ModulePortDeclaration));
    SearchSyntaxTree(root, NodeMatcher(ModulePortDeclaration))
  }

  // ---------------------------------------------------------------------------
  // Port declarations

  /**
   * The slot `position` of a node tagged `tag`, when filled, holds a leaf.
   * Callers of the direction accessors must guarantee this: the source casts
   * the child to a leaf without checking.
   */
  predicate SlotHoldsLeafWhenFilled(t: Tree, tag: NodeEnum, position: nat) {
    HasTag(t, tag) && At(t, [position]).Some? ==> At(t, [position]).value.Leaf?
  }

  /** The identifier of a port declaration: slot 3, unwrapped. */
  function GetIdentifierFromPortDeclaration(t: Tree): (r: Option<LeafTree>)
    ensures !(HasTag(t, PortDeclaration) && At(t, [3]).Some?) ==> r == None
    ensures HasTag(t, PortDeclaration) && At(t, [3]).Some? ==> r == AutoUnwrapIdentifier(At(t, [3]).value)
    ensures r.Some? ==> r == At(t, [3]) || r == At(t, [3, 0])
  {
    match GetSubtreeAsSymbol(t, PortDeclaration, 3)
    case None => None
    case Some(identifier) => AutoUnwrapIdentifier(identifier)
  }

  /** The direction keyword of a port declaration: slot 0, as it is. */
  function GetDirectionFromPortDeclaration(t: Tree): (r: Option<LeafTree>)
    requires SlotHoldsLeafWhenFilled(t, PortDeclaration, 0)
    ensures r.Some? <==> HasTag(t, PortDeclaration) && At(t, [0]).Some?
    ensures r.Some? ==> r == At(t, [0])
  {
    match GetSubtreeAsSymbol(t, PortDeclaration, 0)
    case None => None
    case Some(direction) => Some(direction)
  }

  // ---------------------------------------------------------------------------
  // Module port declarations

  /**
   * The identifier of a module port declaration: the identifier of the first
   * identifier-with-unpacked-dimensions construct found below it, in pre-order.
   */
  function GetIdentifierFromModulePortDeclaration(t: Tree): (r: Option<LeafTree>)
    requires t.Node?
    ensures !HasTag(t, ModulePortDeclaration) ==> r == None
    ensures HasTag(t, ModulePortDeclaration) && (forall x :: Reachable(t, x) ==> !HasTag(x, IdentifierUnpackedDimensions))
      ==> r == None
    ensures forall p ::
      (HasTag(t, ModulePortDeclaration) && IsFirstMatch(t, NodeMatcher(IdentifierUnpackedDimensions), p)
       ==> r == GetSymbolIdentifierFromIdentifierUnpackedDimensions(At(t, p).value))
  {
    SearchEmptyIff(t, NodeMatcher(IdentifierUnpackedDimensions));
    SearchHeadIsFirstMatch(t, NodeMatcher(IdentifierUnpackedDimensions));
    if !HasTag(t, ModulePortDeclaration) then None
    else
      var idUnpackedDims := FindAllIdentifierUnpackedDimensions(t);
      if idUnpackedDims == [] then None
      else GetSymbolIdentifierFromIdentifierUnpackedDimensions(idUnpackedDims[0])
  }

  /**
   * The error diagnostic `GetIdentifierFromModulePortDeclaration` logs: the
   * number of identifier-with-unpacked-dimensions constructs found, reported
   * when there is more than one. It has no effect on the identifier returned.
   */
  function ModulePortDeclarationIdentifierCountLogged(t: Tree): (logged: Option<nat>)
    requires t.Node?
    ensures logged.Some? <==>
      HasTag(t, ModulePortDeclaration) && |MatchPaths(t, NodeMatcher(IdentifierUnpackedDimensions))| > 1
    ensures logged.Some? ==> logged.value == |MatchPaths(t, NodeMatcher(IdentifierUnpackedDimensions))|
  {
    SearchHeadIsFirstMatch(t, NodeMatcher(IdentifierUnpackedDimensions));
    if !HasTag(t, ModulePortDeclaration) then None
    else
      var idUnpackedDims := FindAllIdentifierUnpackedDimensions(t);
      if idUnpackedDims == [] then None
      else if |idUnpackedDims| > 1 then Some(|idUnpackedDims|)
      else None
  }

  /** The direction keyword of a module port declaration: slot 0, as it is. */
  function GetDirectionFromModulePortDeclaration(t: Tree): (r: Option<LeafTree>)
    requires SlotHoldsLeafWhenFilled(t, ModulePortDeclaration, 0)
    ensures r.Some? <==> HasTag(t, ModulePortDeclaration) && At(t, [0]).Some?
    ensures r.Some? ==> r == At(t, [0])
  {
    match GetSubtreeAsSymbol(t, ModulePortDeclaration, 0)
    case None => None
    case Some(direction) => Some(direction)
  }

  // ---------------------------------------------------------------------------
  // Ports and port references

  /** The identifier of a port reference: slot 0, unwrapped. */
  function GetIdentifierFromPortReference(t: Tree): (r: Option<LeafTree>)
    ensures !(HasTag(t, PortReference) && At(t, [0]).Some?) ==> r == None
    ensures HasTag(t, PortReference) && At(t, [0]).Some? ==> r == AutoUnwrapIdentifier(At(t, [0]).value)
    ensures r.Some? ==> r == At(t, [0]) || r == At(t, [0, 0])
  {
    match GetSubtreeAsSymbol(t, PortReference, 0)
    case None => None
    case Some(identifier) => AutoUnwrapIdentifier(identifier)
  }

  /** The port reference of a port: slot 0, only when it is a port-reference node. */
  function GetPortReferenceFromPort(t: Tree): (r: Option<NodeTree>)
    ensures r.Some? <==> HasTag(t, Port) && HasTagAt(t, [0], PortReference)
    ensures r.Some? ==> r == At(t, [0])
  {
    GetSubtreeAsNode(t, Port, 0, PortReference)
  }

  // ---------------------------------------------------------------------------
  // Task and function port items

  /** Slot 1 of a port item, only when it is a type-identifier-dimensions node. */
  function GetTypeIdDimensionsFromTaskFunctionPortItem(t: Tree): (r: Option<NodeTree>)
    ensures r.Some? <==> HasTag(t, PortItem) && HasTagAt(t, [1], DataTypeImplicitBasicIdDimensions)
    ensures r.Some? ==> r == At(t, [1])
  {
    GetSubtreeAsNode(t, PortItem, 1, DataTypeImplicitBasicIdDimensions)
  }

  /** The unpacked dimensions of a port item: slot 2 of its type-identifier-dimensions node. */
  function GetUnpackedDimensionsFromTaskFunctionPortItem(t: Tree): (r: Option<NodeTree>)
    ensures r.Some? <==>
      HasTag(t, PortItem) && HasTagAt(t, [1], DataTypeImplicitBasicIdDimensions)
      && HasTagAt(t, [1, 2], UnpackedDimensions)
    ensures r.Some? ==> r == At(t, [1, 2])
  {
    match GetTypeIdDimensionsFromTaskFunctionPortItem(t)
    case None => None
    case Some(typeIdDimensions) =>
      GetSubtreeAsNode(typeIdDimensions, DataTypeImplicitBasicIdDimensions, 2, UnpackedDimensions)
  }

  /** The type of a port item: slot 0 of its type-identifier-dimensions node. */
  function GetTypeOfTaskFunctionPortItem(t: Tree): (r: Option<Tree>)
    ensures r.Some? <==>
      HasTag(t, PortItem) && HasTagAt(t, [1], DataTypeImplicitBasicIdDimensions)
      && HasTagAt(t, [1, 0], DataType)
    ensures r.Some? ==> r == At(t, [1, 0])
  {
    match GetTypeIdDimensionsFromTaskFunctionPortItem(t)
    case None => None
    case Some(typeIdDimensions) =>
      GetSubtreeAsNode(typeIdDimensions, DataTypeImplicitBasicIdDimensions, 0, DataType)
  }

  /** The identifier of a port item: slot 1 of its type-identifier-dimensions node, unwrapped. */
  function GetIdentifierFromTaskFunctionPortItem(t: Tree): (r: Option<LeafTree>)
    ensures !(HasTag(t, PortItem) && HasTagAt(t, [1], DataTypeImplicitBasicIdDimensions) && At(t, [1, 1]).Some?)
      ==> r == None
    ensures HasTag(t, PortItem) && HasTagAt(t, [1], DataTypeImplicitBasicIdDimensions) && At(t, [1, 1]).Some?
      ==> r == AutoUnwrapIdentifier(At(t, [1, 1]).value)
    ensures r.Some? ==> r == At(t, [1, 1]) || r == At(t, [1, 1, 0])
  {
    match GetTypeIdDimensionsFromTaskFunctionPortItem(t)
    case None => None
    case Some(typeIdDimensions) =>
      if |typeIdDimensions.children| <= 1 then None
      else
        match typeIdDimensions.children[1]
        case None => None
        case Some(portItem) => AutoUnwrapIdentifier(portItem)
  }

  /**
   * The three port-item accessors share their first step: when slot 1 of the
   * port item is empty or not a type-identifier-dimensions node, all are absent.
   */
  lemma PortItemChainShortCircuits(t: Tree)
    ensures GetTypeIdDimensionsFromTaskFunctionPortItem(t).None? ==>
      && GetUnpackedDimensionsFromTaskFunctionPortItem(t).None?
      && GetTypeOfTaskFunctionPortItem(t).None?
      && GetIdentifierFromTaskFunctionPortItem(t).None?
  {
  }

  // ---------------------------------------------------------------------------
  // Actual named ports

  /** The name of an actual named port: slot 1, only when it is a leaf. */
  function GetActualNamedPortName(t: Tree): (r: Option<LeafTree>)
    ensures r.Some? <==> HasTag(t, ActualNamedPort) && At(t, [1]).Some? && At(t, [1]).value.Leaf?
    ensures r.Some? ==> r == At(t, [1])
  {
    GetSubtreeAsLeaf(t, ActualNamedPort, 1)
  }

  /** The parenthesized value group of an actual named port: slot 2, whatever it holds. */
  function GetActualNamedPortParenGroup(t: Tree): (r: Option<Tree>)
    ensures r.Some? <==> HasTag(t, ActualNamedPort) && At(t, [2]).Some?
    ensures r.Some? ==> r == At(t, [2])
  {
    GetSubtreeAsSymbol(t, ActualNamedPort, 2)
  }

  // ---------------------------------------------------------------------------
  // What every accessor returns lies inside its argument

  lemma DescendantAt(t: Tree, path: seq<nat>, x: Tree)
    requires |path| > 0 && At(t, path) == Some(x)
    ensures ProperDescendant(t, x)
  {
  }

  /**
   * Every subtree an accessor returns is found strictly below the node it was
   * given: the results are references into the caller's tree, never new trees.
   */
  lemma AccessorResultsAreProperDescendants(t: Tree)
    ensures var r := GetIdentifierFromPortDeclaration(t); r.Some? ==> ProperDescendant(t, r.value)
    ensures SlotHoldsLeafWhenFilled(t, PortDeclaration, 0) ==>
      var r := GetDirectionFromPortDeclaration(t); r.Some? ==> ProperDescendant(t, r.value)
    ensures t.Node? ==>
      var r := GetIdentifierFromModulePortDeclaration(t); r.Some? ==> ProperDescendant(t, r.value)
    ensures SlotHoldsLeafWhenFilled(t, ModulePortDeclaration, 0) ==>
      var r := GetDirectionFromModulePortDeclaration(t); r.Some? ==> ProperDescendant(t, r.value)
    ensures var r := GetIdentifierFromPortReference(t); r.Some? ==> ProperDescendant(t, r.value)
    ensures var r := GetPortReferenceFromPort(t); r.Some? ==> ProperDescendant(t, r.value)
    ensures var r := GetUnpackedDimensionsFromTaskFunctionPortItem(t); r.Some? ==> ProperDescendant(t, r.value)
    ensures var r := GetTypeOfTaskFunctionPortItem(t); r.Some? ==> ProperDescendant(t, r.value)
    ensures var r := GetIdentifierFromTaskFunctionPortItem(t); r.Some? ==> ProperDescendant(t, r.value)
    ensures var r := GetActualNamedPortName(t); r.Some? ==> ProperDescendant(t, r.value)
    ensures var r := GetActualNamedPortParenGroup(t); r.Some? ==> ProperDescendant(t, r.value)
  {
    Below(t, [3], GetIdentifierFromPortDeclaration(t));
    Below(t, [3, 0], GetIdentifierFromPortDeclaration(t));
    if SlotHoldsLeafWhenFilled(t, PortDeclaration, 0) {
      Below(t, [0], GetDirectionFromPortDeclaration(t));
    }
    if t.Node? {
      ModulePortIdentifierIsBelow(t);
    }
    if SlotHoldsLeafWhenFilled(t, ModulePortDeclaration, 0) {
      Below(t, [0], GetDirectionFromModulePortDeclaration(t));
    }
    Below(t, [0], GetIdentifierFromPortReference(t));
    Below(t, [0, 0], GetIdentifierFromPortReference(t));
    Below(t, [0], GetPortReferenceFromPort(t));
    Below(t, [1, 2], GetUnpackedDimensionsFromTaskFunctionPortItem(t));
    Below(t, [1, 0], GetTypeOfTaskFunctionPortItem(t));
    Below(t, [1, 1], GetIdentifierFromTaskFunctionPortItem(t));
    Below(t, [1, 1, 0], GetIdentifierFromTaskFunctionPortItem(t));
    Below(t, [1], GetActualNamedPortName(t));
    Below(t, [2], GetActualNamedPortParenGroup(t));
  }

  lemma Below(t: Tree, path: seq<nat>, r: Option<Tree>)
    requires |path| > 0
    ensures r.Some? && r == At(t, path) ==> ProperDescendant(t, r.value)
  {
    if r.Some? && r == At(t, path) {
      DescendantAt(t, path, r.value);
    }
  }

  lemma ModulePortIdentifierIsBelow(t: Tree)
    requires t.Node?
    ensures var r := GetIdentifierFromModulePortDeclaration(t); r.Some? ==> ProperDescendant(t, r.value)
  {
    var m := NodeMatcher(IdentifierUnpackedDimensions);
    var r := GetIdentifierFromModulePortDeclaration(t);
    SearchHeadIsFirstMatch(t, m);
    if r.Some? {
      var found := SearchSyntaxTree(t, m);
      assert found != [];
      var p := MatchPaths(t, m)[0];
      var x := At(t, p).value;
      assert r == GetSymbolIdentifierFromIdentifierUnpackedDimensions(x);
      assert HasTag(x, IdentifierUnpackedDimensions) && At(t, []) == Some(t);
      assert p != [];
      if r == At(x, [0]) {
        AtConcat(t, p, [0]);
        DescendantAt(t, p + [0], r.value);
      } else {
        AtConcat(t, p, [0, 0]);
        DescendantAt(t, p + [0, 0], r.value);
      }
    }
  }
}
