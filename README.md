# Port queries over a Verilog concrete syntax tree

A Dafny model of the port query layer of the Verible Verilog/SystemVerilog
tools (`verilog/CST/port.cc`). The layer reads a concrete syntax tree (CST) and
never changes it. It offers two kinds of query:

- **Search wrappers** (`FindAll*`). Each one lists every subtree whose node
  tag is a given grammar production. The list is in pre-order, left to right.
- **Positional accessors** (`Get*`). Each one fetches a grammar-fixed child
  slot of a node of an expected kind. Some also check the child's kind, or
  unwrap an identifier down to its leaf token. Missing or unexpected structure
  gives `None`, which is the source's `nullptr`.

The tree is the value `Tree = Leaf(token) | Node(tag, seq<Option<Tree>>)`.
An empty child slot is `None`. A place in the tree is a path of child
positions, read by `SyntaxTree.At`. The source returns pointers into the
caller's tree; the model returns the subtree at that place.

Modules, leaves first:

- `Wrappers`: `Option`.
- `SyntaxTree`: the tree, the node tags (`NodeEnum`), paths and `At`.
- `TreeSearch`: the search engine `SearchSyntaxTree` and the node-kind
  matcher. The engine is proved against an independent description: the list
  `Paths(t)` of every position in the tree, in document order (`PathBefore`),
  filtered by the matcher.
- `TreeUtils`: `GetSubtreeAsSymbol`, `GetSubtreeAsNode`, `GetSubtreeAsLeaf`.
- `Identifier`: `AutoUnwrapIdentifier` and the
  identifier-with-unpacked-dimensions helpers.
- `VerilogPort`: the functions of `port.cc`.
- `PortScenarios`: concrete port constructs and what each query gives for them.

The helpers that `port.cc` calls are defined in other files of the repository.
Those files are not part of this model. The model gives each helper the
contract its call sites in `port.cc` rely on:

- the search is a pre-order walk that skips empty slots and keeps descending
  below a match;
- the `GetSubtreeAs*` helpers return `None` on a wrong parent tag, a position
  past the last slot, an empty slot, or a child of the wrong kind;
- `AutoUnwrapIdentifier` maps a leaf to itself, and an unqualified-identifier
  node to the leaf in its slot 0.

Points where the model follows the code's letter rather than its names:

- `FindAllPortReferences` searches for `kPort` nodes, not for
  `kPortReference` nodes (port.cc:47).
- The direction accessors do not check that slot 0 holds a leaf. They cast it
  (port.cc:65, 94), and the cast aborts on a node. The model states this as a
  precondition, `SlotHoldsLeafWhenFilled`.
- `GetIdentifierFromModulePortDeclaration` casts its argument to a node
  (port.cc:77). The model requires a node.
- The type of a port item is returned only when it is tagged `kDataType`
  (port.cc:134-136).

## Model

| member | source | states |
|---|---|---|
| `TreeSearch.SearchLocatesMatches` | verilog/CST/port.cc:35-53 | The search returns the subtrees at exactly the positions that hold a node of the sought kind. Those positions are in strict document order: a node comes before what lies below it, and slot i before slot j > i. |
| `TreeSearch.SearchListsMatchesInPreOrder` | verilog/CST/port.cc:37 | The search result satisfies the pre-order match-list specification `ListsMatchesInPreOrder`. |
| `TreeSearch.MatchListIsUnique` | verilog/CST/port.cc:35-53 | At most one list satisfies the pre-order match-list specification, so each `FindAll*` result is fully determined by the tree. |
| `TreeSearch.SearchMembership` | verilog/CST/port.cc:35-53 | A subtree is in the search result if and only if it has the sought tag and occurs in the tree. A match's own matching descendants are reported too. |
| `TreeSearch.SearchEmptyIff` | verilog/CST/port.cc:35-53 | The search is empty if and only if no subtree of the tree has the sought tag. |
| `TreeSearch.SearchHeadIsFirstMatch` | verilog/CST/port.cc:80-87 | The first element of the search result is the subtree at the first matching position in document order. That first matching position is unique. |
| `TreeSearch.SearchIsFilteredSubtrees` | verilog/CST/port.cc:37 | The search equals the pre-order enumeration of all subtrees, filtered by the matcher (a stepping stone to `SearchLocatesMatches`; the enumeration mirrors the search recursion). |
| `TreeSearch.PathsOrdered` | verilog/CST/port.cc:37 | The enumerated positions are in strict document order. |
| `TreeSearch.PathsComplete` | verilog/CST/port.cc:37 | Every position of the tree that holds a subtree is enumerated. |
| `TreeSearch.PathsLocateSubtrees` | verilog/CST/port.cc:37 | Enumerated position k holds enumerated subtree k. |
| `TreeUtils.GetSubtreeAsSymbol` | verilog/CST/port.cc:56-58 | Returns the child in slot i exactly when the parent has the expected tag, i is in range and the slot is filled. Otherwise returns `None`. |
| `TreeUtils.GetSubtreeAsNode` | verilog/CST/port.cc:109-110 | As `GetSubtreeAsSymbol`, and additionally the child must be a node with the expected child tag. |
| `TreeUtils.GetSubtreeAsLeaf` | verilog/CST/port.cc:151-152 | As `GetSubtreeAsSymbol`, and additionally the child must be a leaf. |
| `Identifier.AutoUnwrapIdentifier` | verilog/CST/port.cc:59 | A leaf unwraps to itself. An unqualified-identifier node unwraps to the leaf in its slot 0. Anything else has no identifier. |
| `Identifier.UnwrapIsIdempotent` | verilog/CST/port.cc:59 | Unwrapping an already unwrapped identifier leaf gives the same leaf. |
| `Identifier.FindAllIdentifierUnpackedDimensions` | verilog/CST/port.cc:80 | Lists every identifier-with-unpacked-dimensions node of the tree, in pre-order. |
| `Identifier.GetSymbolIdentifierFromIdentifierUnpackedDimensions` | verilog/CST/port.cc:86-87 | Returns the unwrapped slot 0 of an identifier-with-unpacked-dimensions node. Returns `None` for any other node or an empty slot. |
| `VerilogPort.FindAllPortDeclarations` | verilog/CST/port.cc:35-38 | Lists every `kPortDeclaration` node in pre-order, left to right. The list is empty for a leaf root. |
| `VerilogPort.FindAllActualNamedPort` | verilog/CST/port.cc:40-43 | Lists every `kActualNamedPort` node in pre-order. The list is empty for a leaf root. |
| `VerilogPort.FindAllPortReferences` | verilog/CST/port.cc:45-48 | Lists every `kPort` node in pre-order. The list is empty for a leaf root. |
| `VerilogPort.FindAllTaskFunctionPortDeclarations` | verilog/CST/port.cc:50-53 | Lists every `kPortItem` node in pre-order. The list is empty for a leaf root. |
| `VerilogPort.FindAllModulePortDeclarations` | verilog/CST/port.cc:70-73 | Lists every `kModulePortDeclaration` node in pre-order. The list is empty for a leaf root. |
| `VerilogPort.GetIdentifierFromPortDeclaration` | verilog/CST/port.cc:55-60 | Returns `None` unless the node is a `kPortDeclaration` with slot 3 filled. Otherwise returns slot 3 unwrapped, which is the leaf at slot 3 or the leaf at slot 3 then 0. |
| `VerilogPort.GetDirectionFromPortDeclaration` | verilog/CST/port.cc:62-68 | Returns slot 0 itself exactly when the node is a `kPortDeclaration` with slot 0 filled. Requires that a filled slot 0 is a leaf, because the source casts it. |
| `VerilogPort.GetIdentifierFromModulePortDeclaration` | verilog/CST/port.cc:75-88 | Returns `None` for another tag, and when no identifier-with-unpacked-dimensions node occurs. Otherwise returns the identifier of the first such node in document order. |
| `VerilogPort.ModulePortDeclarationIdentifierCountLogged` | verilog/CST/port.cc:82-85 | The error is logged exactly when a module port declaration holds more than one identifier-with-unpacked-dimensions node. The logged number is how many positions hold one. |
| `VerilogPort.GetDirectionFromModulePortDeclaration` | verilog/CST/port.cc:90-97 | Returns slot 0 itself exactly when the node is a `kModulePortDeclaration` with slot 0 filled. Requires that a filled slot 0 is a leaf. |
| `VerilogPort.GetIdentifierFromPortReference` | verilog/CST/port.cc:99-105 | Returns `None` unless the node is a `kPortReference` with slot 0 filled. Otherwise returns slot 0 unwrapped. |
| `VerilogPort.GetPortReferenceFromPort` | verilog/CST/port.cc:107-111 | Returns slot 0 of a `kPort` node only when it is a `kPortReference` node. Otherwise returns `None`. |
| `VerilogPort.GetTypeIdDimensionsFromTaskFunctionPortItem` | verilog/CST/port.cc:113-118 | Returns slot 1 of a `kPortItem` only when it is a `kDataTypeImplicitBasicIdDimensions` node. |
| `VerilogPort.GetUnpackedDimensionsFromTaskFunctionPortItem` | verilog/CST/port.cc:120-128 | Returns the subtree at slot 1 then 2, only when slot 1 is a type-identifier-dimensions node and slot 2 of it is tagged `kUnpackedDimensions`. |
| `VerilogPort.GetTypeOfTaskFunctionPortItem` | verilog/CST/port.cc:130-137 | Returns the subtree at slot 1 then 0, only when slot 1 is a type-identifier-dimensions node and slot 0 of it is tagged `kDataType`. |
| `VerilogPort.GetIdentifierFromTaskFunctionPortItem` | verilog/CST/port.cc:139-147 | Returns `None` if the inner node is missing, has at most one slot, or has an empty slot 1. Otherwise returns slot 1 then 1, unwrapped. |
| `VerilogPort.PortItemChainShortCircuits` | verilog/CST/port.cc:113-147 | When slot 1 of a port item is empty or of another kind, the dimensions, type and identifier accessors all return `None`. |
| `VerilogPort.GetActualNamedPortName` | verilog/CST/port.cc:149-153 | Returns slot 1 of a `kActualNamedPort` only when it is a leaf. |
| `VerilogPort.GetActualNamedPortParenGroup` | verilog/CST/port.cc:155-159 | Returns slot 2 of a `kActualNamedPort` unchanged, whatever its kind. |
| `VerilogPort.AccessorResultsAreProperDescendants` | verilog/CST/port.cc:55-159 | Every subtree an accessor returns occurs strictly below the node it was given. |
| `PortScenarios.ModulePortDeclarationDirection` | verilog/CST/port.cc:90-97 | For `[input, _, _, identifier]`, the direction is the `input` leaf. With slot 0 empty, the direction is absent. |
| `PortScenarios.ModulePortDeclarationIdentifier` | verilog/CST/port.cc:75-88 | Whether or not slot 0 holds a direction, the identifier is the wrapped name's leaf, and nothing is logged. |
| `PortScenarios.DuplicateIdentifierTakesFirst` | verilog/CST/port.cc:80-87 | With two identifier constructs, the first one's identifier is returned. |
| `PortScenarios.DuplicateIdentifierIsLogged` | verilog/CST/port.cc:82-85 | With two identifier constructs, one diagnostic is logged, reporting 2. |
| `PortScenarios.PortReferenceIdentifier` | verilog/CST/port.cc:99-105 | A plain or wrapped identifier in slot 0 gives its leaf. An empty port reference gives `None`. |
| `PortScenarios.PortItemWithoutTypeIdDimensions` | verilog/CST/port.cc:113-147 | A port item with slot 1 empty gives `None` from all three accessors. |
| `PortScenarios.ActualNamedPortParts` | verilog/CST/port.cc:149-159 | The name is the leaf in slot 1. The paren group is slot 2, unchanged. |
| `PortScenarios.SearchingALeafFindsNothing` | verilog/CST/port.cc:35-73 | Searching a single-leaf tree finds nothing. |

## Left out

- The log sink (port.cc:83-84). The message text and its severity are not modelled. The diagnostic is modelled as the number it reports, by `ModulePortDeclarationIdentifierCountLogged`, kept apart from the identifier result it does not affect.
- Search match context. A verible search match also carries the stack of ancestors of the match. The model keeps only the matched subtree. Its position is stated through `MatchPaths`.
- The matcher library. Only the single-tag node matchers (`NodekX()`) used here are modelled. Matchers that also constrain children are not.
- The internals of the search engine. The engine is specified only by its pre-order contract.
- The full grammar enumeration. `NodeEnum` names only the tags these queries use; all others are `OtherNode(n)`.
- Token kinds, token text and source spans. A token is a kind number and a string, and the queries read neither.
- `AutoUnwrapIdentifier`: the model does not check the kind of a leaf's token. The helper's own file is not part of this model, and its call sites here only need "a leaf is its own identifier".
- `GetSymbolIdentifierFromIdentifierUnpackedDimensions`: when slot 0 is empty, the model returns `None`. The helper's own file is not part of this model.
- The aborts of `SymbolCastToLeaf` and `SymbolCastToNode` (port.cc:65, 77, 94). They are not modelled as behaviour. They become preconditions of the three functions that cast.
- Pointer identity and lifetime. Results are subtree values, so two equal subtrees at different places are the same value. Where a result sits is stated by paths (`At`, `MatchPaths`).
