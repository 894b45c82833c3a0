/**
 * Concrete port constructs and what the queries give for them: one well-formed
 * shape per accessor, its degraded variants, and a declaration that breaks the
 * single-identifier invariant.
 */
module PortScenarios {
  import opened Wrappers
  import opened SyntaxTree
  import opened TreeSearch
  import opened Identifier
  import opened VerilogPort

  const InputKeyword: Tree := Leaf(Token(1, "input"))
  const ClockName: Tree := Leaf(Token(2, "clk"))
  const ResetName: Tree := Leaf(Token(2, "rst"))

  /** `clk` wrapped in an unqualified-identifier node. */
  const WrappedClockName: Tree := Node(UnqualifiedId, [Some(ClockName)])

  function IdWithDimensions(name: Tree): Tree {
    Node(IdentifierUnpackedDimensions, [Some(name), None])
  }

  /** `[direction, _, _, identifier-with-dimensions]` */
  function ModulePortDecl(direction: Option<Tree>): Tree {
    Node(ModulePortDeclaration, [direction, None, None, Some(IdWithDimensions(WrappedClockName))])
  }

  /** Slots `i..` of `t` hold only leaves or nothing, so nothing is found below them. */
  lemma {:induction false} NothingBelowLeaves(t: Tree, i: nat, m: Matcher)
    requires t.Node? && i <= |t.children|
    requires forall k :: i <= k < |t.children| ==> t.children[k].None? || t.children[k].value.Leaf?
    ensures SearchChildren(t, i, m) == []
    decreases |t.children| - i
  {
    if i < |t.children| {
      NothingBelowLeaves(t, i + 1, m);
    }
  }

  /** The identifier constructs of `ModulePortDecl(direction)`: its last slot only. */
  lemma SearchModulePortDecl(direction: Option<Tree>)
    requires direction.None? || direction.value.Leaf?
    ensures FindAllIdentifierUnpackedDimensions(ModulePortDecl(direction)) == [IdWithDimensions(WrappedClockName)]
  {
    var m := NodeMatcher(IdentifierUnpackedDimensions);
    var decl, ids := ModulePortDecl(direction), IdWithDimensions(WrappedClockName);
    NothingBelowLeaves(WrappedClockName, 0, m);
    assert SearchSyntaxTree(WrappedClockName, m) == [];
    assert SearchChildren(ids, 0, m) == [] by {
      assert SearchChildren(ids, 1, m) == [];
    }
    assert SearchSyntaxTree(ids, m) == [ids];
    assert SearchChildren(decl, 3, m) == [ids];
    assert SearchChildren(decl, 0, m) == [ids] by {
      assert SearchChildren(decl, 2, m) == [ids];
      assert SearchChildren(decl, 1, m) == [ids];
    }
  }

  lemma ModulePortDeclarationDirection()
    ensures GetDirectionFromModulePortDeclaration(ModulePortDecl(Some(InputKeyword))) == Some(InputKeyword)
    ensures GetDirectionFromModulePortDeclaration(ModulePortDecl(None)) == None
  {
  }

  /** The identifier is found whether or not the direction is given, and nothing is logged. */
  lemma ModulePortDeclarationIdentifier(direction: Option<Tree>)
    requires direction.None? || direction.value.Leaf?
    ensures GetIdentifierFromModulePortDeclaration(ModulePortDecl(direction)) == Some(ClockName)
    ensures ModulePortDeclarationIdentifierCountLogged(ModulePortDecl(direction)) == None
  {
    SearchModulePortDecl(direction);
    assert GetSymbolIdentifierFromIdentifierUnpackedDimensions(IdWithDimensions(WrappedClockName)) == Some(ClockName);
  }

  const ClockIds: Tree := IdWithDimensions(ClockName)
  const ResetIds: Tree := IdWithDimensions(ResetName)

  /** A module port declaration holding two identifier constructs where the grammar allows one. */
  const DuplicateDecl: Tree := Node(ModulePortDeclaration, [Some(InputKeyword), Some(ClockIds), Some(ResetIds)])

  lemma SearchDuplicateDecl()
    ensures FindAllIdentifierUnpackedDimensions(DuplicateDecl) == [ClockIds, ResetIds]
  {
    var m := NodeMatcher(IdentifierUnpackedDimensions);
    NothingBelowLeaves(ClockIds, 0, m);
    NothingBelowLeaves(ResetIds, 0, m);
    assert SearchSyntaxTree(ClockIds, m) == [ClockIds];
    assert SearchSyntaxTree(ResetIds, m) == [ResetIds];
    assert SearchChildren(DuplicateDecl, 2, m) == [ResetIds];
    assert SearchChildren(DuplicateDecl, 1, m) == [ClockIds, ResetIds];
    assert SearchChildren(DuplicateDecl, 0, m) == [ClockIds, ResetIds];
  }

  /** The duplicate is recovered from: the first identifier wins. */
  lemma DuplicateIdentifierTakesFirst()
    ensures GetIdentifierFromModulePortDeclaration(DuplicateDecl) == Some(ClockName)
  {
    SearchDuplicateDecl();
  }

  /** The duplicate is reported: one diagnostic, with the count found. */
  lemma DuplicateIdentifierIsLogged()
    ensures ModulePortDeclarationIdentifierCountLogged(DuplicateDecl) == Some(2)
  {
    SearchDuplicateDecl();
  }

  lemma PortReferenceIdentifier()
    ensures GetIdentifierFromPortReference(Node(PortReference, [Some(ClockName)])) == Some(ClockName)
    ensures GetIdentifierFromPortReference(Node(PortReference, [Some(WrappedClockName)])) == Some(ClockName)
    ensures GetIdentifierFromPortReference(Node(PortReference, [])) == None
    ensures GetIdentifierFromPortReference(Node(PortReference, [None])) == None
  {
  }

  lemma PortItemWithoutTypeIdDimensions()
    ensures var item := Node(PortItem, [Some(InputKeyword), None]);
      && GetTypeOfTaskFunctionPortItem(item) == None
      && GetIdentifierFromTaskFunctionPortItem(item) == None
      && GetUnpackedDimensionsFromTaskFunctionPortItem(item) == None
  {
  }

  lemma ActualNamedPortParts()
    ensures var group := Node(OtherNode(7), [Some(ResetName)]);
      var port := Node(ActualNamedPort, [Some(Leaf(Token(3, "."))), Some(ClockName), Some(group)]);
      && GetActualNamedPortName(port) == Some(ClockName)
      && GetActualNamedPortParenGroup(port) == Some(group)
  {
  }

  lemma SearchingALeafFindsNothing(m: Matcher)
    ensures SearchSyntaxTree(ClockName, m) == []
    ensures FindAllPortDeclarations(ClockName) == []
    ensures FindAllModulePortDeclarations(ClockName) == []
  {
  }
}
