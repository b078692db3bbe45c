# AmaterasUML relationship resolution, in Dafny

This project models the part of the AmaterasUML Java plug-in that turns Java
types into class-diagram content, and proves properties of the model.

- **Type-name resolution** (`UMLJavaUtils.isPrimitive`, `stripGenerics`, `getFullQName`).
  A raw, possibly generic, unqualified type name becomes a qualified name.
  The lookup chain is: erase generics; a qualified or primitive name as it is; `java.lang`;
  the parent's own package; the imports in declaration order; the erased name.
- **Member extraction** (`getFields`, `getMethods`). Raw field and method facts become
  attribute and operation models, in order; any failure gives an empty array.
- **Connection building** (`appendSuperClassConnection`, `appendInterfacesConnection`,
  `appendAggregationConnection`, `appendSubConnection`, `getClassName`). Each pass scans the
  diagram's children in order, the first match wins, and an optional `restrict2Model`
  limits the candidates to one model.
- **Manual synchronization** (`SyncAction` and its `CommandChain`). The selection fixes the target
  models. Running the action submits, per target whose type is found, a chain that deletes the
  model and imports its type again at the same place. A chain executes in insertion order and
  undoes in reverse order.

Modules, one per file:

- `Wrappers`: `Option`.
- `Sequences`: first-match scans, reversal and the subsequence relation, shared by the passes and the command chain.
- `JavaStrings`: `startsWith`, `endsWith` and `indexOf`, which the source calls, and `lastIndexOf`, which the source
  does not call; the model uses it to compute the greedy `replaceAll("<.*>", "")` match at UMLJavaUtils.java:382.
- `ClassDiagram`: the diagram's models. `RootModel` is a class whose connection list the passes append to.
- `JavaModel`: the facts the Java index supplies about a type. The project index is a map from a
  qualified name to the type `findType` finds for it.
- `TypeNames`, `MemberExtraction`, `Connections`: `UMLJavaUtils`.
- `Synchronizer`: `SyncAction` and `CommandChain`.

Each state-changing method is proved against a specification function of its inputs. The
lemmas state what the source promises about those functions. A pass's inner scan of the
children is its own method (`Attach…Connection`). The per-child body of `appendSubConnection`
is `AppendChildConnections`. Both do exactly what the loop bodies do.

Where the code and its documentation differ, the model follows the code:
- The imports are scanned once, in declaration order, each checked as a single-type
  import and then as a wildcard. A wildcard declared before a matching single-type import wins
  (`TypeNames.WildcardDeclaredFirstWins`).
- Member extraction returns an empty array when any field or method fails, not the members read so far.
- `stripGenerics` removes lazy `<.+?>` matches, so a nested argument list leaves its outer `>`
  behind: `List<Map<K,V>>` becomes `List>` (`TypeNames.EraseGenericsOfNestedGroup`), and
  `Foo<>` is left as it is.
- In `appendAggregationConnection`, a list type whose first `>` precedes its first `<` makes
  `substring` throw. That exception is not a `JavaModelException`, so nothing catches it: the
  pass stops, and so does an enclosing `appendSubConnection`. The model returns
  `completed == false` and adds nothing further.

Inputs that the code reads from Eclipse are parameters:
- The project index and the type facts are values.
- In `SyncAction.run`, the project found for a model from its path or from the editor input is the
  function `projectFor`.
- The method returns the chains it submits to the command stack.

## Model

| member | source | states |
|---|---|---|
| TypeNames.IsPrimitive | net.java.amateras.umleditor.java/src/net/java/amateras/uml/java/UMLJavaUtils.java:70-76 | true exactly for `int`, `long`, `double`, `float`, `char`, `boolean` and `byte`, so only for names of three to seven characters |
| TypeNames.PrimitiveIsPlain | net.java.amateras.umleditor.java/src/net/java/amateras/uml/java/UMLJavaUtils.java:70-76 | a primitive keyword holds no `.`, `<` or `>` |
| TypeNames.ShortAndVoidAreNotPrimitive | net.java.amateras.umleditor.java/src/net/java/amateras/uml/java/UMLJavaUtils.java:70-76 | `short` and `void` are not primitive |
| TypeNames.GroupEnd | net.java.amateras.umleditor.java/src/net/java/amateras/uml/java/UMLJavaUtils.java:440-445 | the lazy `<.+?>` match at the head ends at the first `>` two or more places on, and there is none exactly when no such `>` exists |
| TypeNames.EraseGenerics | net.java.amateras.umleditor.java/src/net/java/amateras/uml/java/UMLJavaUtils.java:440-445 | erasure never lengthens a name and leaves a name without `<` unchanged |
| TypeNames.StripGenerics | net.java.amateras.umleditor.java/src/net/java/amateras/uml/java/UMLJavaUtils.java:440-445 | `null` maps to `null` and only `null` does; a name without `<` is returned unchanged |
| TypeNames.EraseGenericsChars | net.java.amateras.umleditor.java/src/net/java/amateras/uml/java/UMLJavaUtils.java:440-445 | every character of the erased name occurs in the input |
| TypeNames.EraseGenericsDeletes | net.java.amateras.umleditor.java/src/net/java/amateras/uml/java/UMLJavaUtils.java:440-445 | erasure only deletes: the result is a subsequence of the input, its characters kept in their order |
| TypeNames.EraseGenericsLeavesNoGroup | net.java.amateras.umleditor.java/src/net/java/amateras/uml/java/UMLJavaUtils.java:440-445 | no `<…>` group survives erasure |
| TypeNames.EraseGenericsKeepsPlain | net.java.amateras.umleditor.java/src/net/java/amateras/uml/java/UMLJavaUtils.java:440-445 | a name without a group is unchanged |
| TypeNames.EraseGenericsIdempotent | net.java.amateras.umleditor.java/src/net/java/amateras/uml/java/UMLJavaUtils.java:440-445 | erasing twice is erasing once |
| TypeNames.EraseGenericsKeepsPrefix | net.java.amateras.umleditor.java/src/net/java/amateras/uml/java/UMLJavaUtils.java:440-445 | text before the first `<` is kept |
| TypeNames.EraseLeadingGroup | net.java.amateras.umleditor.java/src/net/java/amateras/uml/java/UMLJavaUtils.java:440-445 | a leading group `<w>` with no `>` inside is removed, and erasure goes on after it |
| TypeNames.EraseGenericsOfGroup | net.java.amateras.umleditor.java/src/net/java/amateras/uml/java/UMLJavaUtils.java:440-445 | `N<A>` erases to `N` |
| TypeNames.EraseGenericsOfNestedGroup | net.java.amateras.umleditor.java/src/net/java/amateras/uml/java/UMLJavaUtils.java:440-445 | `N<M<A>>` erases to `N>`: the lazy match stops at the first `>` |
| TypeNames.EraseGenericsKeepsEmptyBrackets | net.java.amateras.umleditor.java/src/net/java/amateras/uml/java/UMLJavaUtils.java:440-445 | `N<>` is not erased, since `.+?` needs one character |
| TypeNames.WildcardProbe | net.java.amateras.umleditor.java/src/net/java/amateras/uml/java/UMLJavaUtils.java:122 | the probe is the import with its trailing `*` replaced by the simple name |
| TypeNames.ImportMatch | net.java.amateras.umleditor.java/src/net/java/amateras/uml/java/UMLJavaUtils.java:116-127 | an import ending in `.T` gives itself; otherwise a wildcard whose probe the index has gives the probed type's canonical name, and every other import gives nothing |
| TypeNames.ImportScan | net.java.amateras.umleditor.java/src/net/java/amateras/uml/java/UMLJavaUtils.java:114-129 | an answer comes from some import; there is none exactly when no import resolves the name |
| TypeNames.ImportScanPicksFirst | net.java.amateras.umleditor.java/src/net/java/amateras/uml/java/UMLJavaUtils.java:115-129 | the first import in declaration order that resolves the name decides |
| TypeNames.FullQName | net.java.amateras.umleditor.java/src/net/java/amateras/uml/java/UMLJavaUtils.java:85-134 | the result is the erased name, a canonical name from the index, or one of the parent's imports |
| TypeNames.Qualify | net.java.amateras.umleditor.java/src/net/java/amateras/uml/java/UMLJavaUtils.java:89-133 | a qualified or primitive name is returned unchanged; any other result is the name itself, the canonical name of the existing `java.lang` type, that of the existing own-package type, or the answer of one of the parent's imports |
| TypeNames.GetFullQName | net.java.amateras.umleditor.java/src/net/java/amateras/uml/java/UMLJavaUtils.java:85-134 | the method's result is `FullQName` |
| TypeNames.GetQualifiedName | net.java.amateras.umleditor.java/src/net/java/amateras/uml/java/UMLJavaUtils.java:89-133 | the early returns and the import loop compute the lookup chain on the erased name |
| TypeNames.ScanImports | net.java.amateras.umleditor.java/src/net/java/amateras/uml/java/UMLJavaUtils.java:115-129 | the import loop returns the answer of the first import, in declaration order, that resolves the name, and nothing when none does |
| TypeNames.ResolutionIgnoresGenerics | net.java.amateras.umleditor.java/src/net/java/amateras/uml/java/UMLJavaUtils.java:87 | resolving an erased name gives the same result as resolving the raw name |
| TypeNames.PlainNamesSkipTheIndex | net.java.amateras.umleditor.java/src/net/java/amateras/uml/java/UMLJavaUtils.java:89-94 | a qualified or primitive erased name comes back unchanged, whatever the index, package or imports |
| TypeNames.PrimitiveResolvesToItself | net.java.amateras.umleditor.java/src/net/java/amateras/uml/java/UMLJavaUtils.java:92-94 | a primitive keyword resolves to itself in every context |
| TypeNames.JavaLangComesFirst | net.java.amateras.umleditor.java/src/net/java/amateras/uml/java/UMLJavaUtils.java:97-104 | an existing `java.lang.T` wins over the own package and the imports |
| TypeNames.OwnPackageBeatsImports | net.java.amateras.umleditor.java/src/net/java/amateras/uml/java/UMLJavaUtils.java:105-112 | a type of the parent's own package wins, and the imports then make no difference |
| TypeNames.FirstResolvingImportWins | net.java.amateras.umleditor.java/src/net/java/amateras/uml/java/UMLJavaUtils.java:113-132 | past `java.lang` and the own package, the first resolving import in declaration order decides; a single-type import is returned verbatim |
| TypeNames.UnresolvedNameFallsBack | net.java.amateras.umleditor.java/src/net/java/amateras/uml/java/UMLJavaUtils.java:133 | when nothing resolves the name, the erased name is returned |
| TypeNames.ExplicitImportDeclaredFirstWins | net.java.amateras.umleditor.java/src/net/java/amateras/uml/java/UMLJavaUtils.java:115-119 | with `p.q.Foo` declared before `p.r.*`, `Foo` resolves to `p.q.Foo` although `p.r.Foo` exists |
| TypeNames.WildcardDeclaredFirstWins | net.java.amateras.umleditor.java/src/net/java/amateras/uml/java/UMLJavaUtils.java:115-125 | with `p.r.*` declared before `p.q.Foo`, `Foo` resolves to `p.r.Foo` |
| MemberExtraction.FlagVisibility | net.java.amateras.umleditor.java/src/net/java/amateras/uml/java/UMLJavaUtils.java:176-184 | the visibility is public, else private, else protected, else package, each exactly when its flag is the highest set |
| MemberExtraction.FieldVisibility | net.java.amateras.umleditor.java/src/net/java/amateras/uml/java/UMLJavaUtils.java:148-158 | a field of an interface is public; otherwise the flags decide |
| MemberExtraction.ToAttribute | net.java.amateras.umleditor.java/src/net/java/amateras/uml/java/UMLJavaUtils.java:141-158 | the attribute keeps the field's name, type, static, final and enum-constant facts, with the field visibility |
| MemberExtraction.ToOperation | net.java.amateras.umleditor.java/src/net/java/amateras/uml/java/UMLJavaUtils.java:174-198 | the operation keeps the method's name, return type and modifiers, one argument per parameter name, with its type |
| MemberExtraction.GetFields | net.java.amateras.umleditor.java/src/net/java/amateras/uml/java/UMLJavaUtils.java:136-166 | a newly allocated array: empty when the fields cannot be listed or one cannot be read; otherwise one attribute per field, in order |
| MemberExtraction.GetMethods | net.java.amateras.umleditor.java/src/net/java/amateras/uml/java/UMLJavaUtils.java:168-205 | a newly allocated array: empty when the methods cannot be listed, one cannot be read or a parameter type is missing; otherwise one operation per method, in order |
| MemberExtraction.InterfaceMethodsAreNotForcedPublic | net.java.amateras.umleditor.java/src/net/java/amateras/uml/java/UMLJavaUtils.java:147-148 | interface ownership forces fields public, but not methods |
| ClassDiagram.RootModel.AttachConnection | net.java.amateras.umleditor.java/src/net/java/amateras/uml/java/UMLJavaUtils.java:234-235 | attaching appends the connection and changes nothing else |
| Connections.GetClassName | net.java.amateras.umleditor.java/src/net/java/amateras/uml/java/UMLJavaUtils.java:48-58 | a name exactly for class, interface and enum models, and it is the model's name |
| Connections.AppendSuperClassConnection | net.java.amateras.umleditor.java/src/net/java/amateras/uml/java/UMLJavaUtils.java:211-239 | the connections grow by exactly `SuperClassEdges` |
| Connections.AttachSuperClassConnection | net.java.amateras.umleditor.java/src/net/java/amateras/uml/java/UMLJavaUtils.java:219-238 | the scan appends the edge to the first admitted child named like the superclass, or nothing |
| Connections.SuperClassConnectionRule | net.java.amateras.umleditor.java/src/net/java/amateras/uml/java/UMLJavaUtils.java:211-239 | no superclass gives no edge; otherwise at most one Generalization from the model, present exactly when an admitted child matches, to the first such child, and to `restrict2Model` when it is set |
| Connections.SuperClassEdgeToRule | net.java.amateras.umleditor.java/src/net/java/amateras/uml/java/UMLJavaUtils.java:211-239 | for one resolved superclass name: at most one edge, present exactly when an admitted child matches, and it is the Generalization from the model to the first such child |
| Connections.AppendInterfacesConnection | net.java.amateras.umleditor.java/src/net/java/amateras/uml/java/UMLJavaUtils.java:318-352 | the connections grow by exactly `InterfaceEdges` over the superinterface names, in order |
| Connections.AttachInterfaceConnection | net.java.amateras.umleditor.java/src/net/java/amateras/uml/java/UMLJavaUtils.java:325-350 | the scan appends the edge to the first admitted interface child with the resolved name, or nothing |
| Connections.InterfaceEdgesSnoc | net.java.amateras.umleditor.java/src/net/java/amateras/uml/java/UMLJavaUtils.java:323-324 | one more interface name adds exactly that name's edge |
| Connections.InterfaceEdgeToRule | net.java.amateras.umleditor.java/src/net/java/amateras/uml/java/UMLJavaUtils.java:325-350 | for one resolved name, at most one edge; there is one exactly when an admitted interface child has that erased name, and it goes from the model to the first such child, Realization for a class or enum and Generalization for an interface |
| Connections.InterfaceConnectionRule | net.java.amateras.umleditor.java/src/net/java/amateras/uml/java/UMLJavaUtils.java:318-352 | no more edges than superinterface names; each edge goes from the model, of the kind its own kind dictates, to an admitted interface child whose erased name is one of the resolved names, and to `restrict2Model` when it is set |
| Connections.ListElementType | net.java.amateras.umleditor.java/src/net/java/amateras/uml/java/UMLJavaUtils.java:374-381 | non-list types and types missing `<` or `>` are kept; the pass throws exactly for a list type whose first `>` precedes its first `<`; an extracted element is shorter and has no `>` |
| Connections.EraseArgumentList | net.java.amateras.umleditor.java/src/net/java/amateras/uml/java/UMLJavaUtils.java:382 | the text before the first `<` joined to the text after the last `>` is kept and the span between is cut; no `<` before a `>` survives, and a type without one is unchanged |
| Connections.RemoveArrayBrackets | net.java.amateras.umleditor.java/src/net/java/amateras/uml/java/UMLJavaUtils.java:383 | removal never lengthens a type and leaves a type without `[]` unchanged |
| Connections.ResolveAttributeType | net.java.amateras.umleditor.java/src/net/java/amateras/uml/java/UMLJavaUtils.java:373-384 | the method computes `AggregationTypeName`, `None` exactly where `substring` throws |
| Connections.AppendAggregationConnection | net.java.amateras.umleditor.java/src/net/java/amateras/uml/java/UMLJavaUtils.java:364-438 | the connections grow by exactly the scan's edges, and the result says whether the pass ran to its end |
| Connections.AppendMemberConnection | net.java.amateras.umleditor.java/src/net/java/amateras/uml/java/UMLJavaUtils.java:367-437 | for one member, the connections grow by its edges; the result is false exactly where `substring` throws, and then nothing is added |
| Connections.AttachAggregationConnection | net.java.amateras.umleditor.java/src/net/java/amateras/uml/java/UMLJavaUtils.java:386-435 | the scan appends the edge from the first admitted matching child to the model, or nothing |
| Connections.AggregationAbortIsFinal | net.java.amateras.umleditor.java/src/net/java/amateras/uml/java/UMLJavaUtils.java:378 | once `substring` has thrown, later members add nothing |
| Connections.AggregationScanSnoc | net.java.amateras.umleditor.java/src/net/java/amateras/uml/java/UMLJavaUtils.java:366-437 | one more member adds exactly that member's edges, or ends the pass |
| Connections.MemberEdgesRule | net.java.amateras.umleditor.java/src/net/java/amateras/uml/java/UMLJavaUtils.java:366-437 | one member adds at most one Aggregation, to the model, from an admitted entity child that is not the enum itself |
| Connections.AggregationEdgeToRule | net.java.amateras.umleditor.java/src/net/java/amateras/uml/java/UMLJavaUtils.java:386-435 | at most one edge; it exists exactly when some admitted child matches, and is the Aggregation from the first such child to the model |
| Connections.AggregationConnectionRule | net.java.amateras.umleditor.java/src/net/java/amateras/uml/java/UMLJavaUtils.java:364-438 | no more edges than members; each goes to the model from an admitted entity child, and under a restriction from `restrict2Model`, never from an enum named like the model when the owner is an enum; each source child matches the resolved type of some non-static attribute |
| Connections.StaticAttributesAreSkipped | net.java.amateras.umleditor.java/src/net/java/amateras/uml/java/UMLJavaUtils.java:370-372 | members that are all static attributes or operations add nothing |
| Connections.StaticAttributeAddsNothing | net.java.amateras.umleditor.java/src/net/java/amateras/uml/java/UMLJavaUtils.java:370-372 | a static attribute anywhere among the members changes nothing: the pass equals the pass without it |
| Connections.EnumNeverAggregatesItself | net.java.amateras.umleditor.java/src/net/java/amateras/uml/java/UMLJavaUtils.java:412-422 | an enum type's pass adds no edge from its own model |
| Connections.AppendChildConnections | net.java.amateras.umleditor.java/src/net/java/amateras/uml/java/UMLJavaUtils.java:252-308 | for one child, the connections grow by the passes its kind calls for, in the source's order |
| Connections.AppendSubConnection | net.java.amateras.umleditor.java/src/net/java/amateras/uml/java/UMLJavaUtils.java:241-311 | the connections grow by exactly `SubScan` over the children, skipping the model and the excluded models |
| Connections.SubScanAbortIsFinal | net.java.amateras.umleditor.java/src/net/java/amateras/uml/java/UMLJavaUtils.java:241-311 | once a pass has thrown, later children add nothing |
| Connections.SubScanSnoc | net.java.amateras.umleditor.java/src/net/java/amateras/uml/java/UMLJavaUtils.java:246-310 | one more child adds exactly its passes' edges, unless it is the model or excluded |
| Connections.ChildOutcomeTouches | net.java.amateras.umleditor.java/src/net/java/amateras/uml/java/UMLJavaUtils.java:257-305 | under a restriction, every edge a child's passes add touches the restricting model |
| Connections.SynchronizedSubConnectionsTouchModel | net.java.amateras.umleditor.java/src/net/java/amateras/uml/java/UMLJavaUtils.java:241-311 | when synchronizing, every edge rebuilt has the model as its source or target |
| Connections.ListElementOfList | net.java.amateras.umleditor.java/src/net/java/amateras/uml/java/UMLJavaUtils.java:374-381 | `List<E>` and `java.util.List<E>` give `E` |
| Connections.RemoveArrayBracketsKeepsPrefix | net.java.amateras.umleditor.java/src/net/java/amateras/uml/java/UMLJavaUtils.java:383 | text without `[` is kept in front of the removal |
| Connections.ArrayBracketsRemoved | net.java.amateras.umleditor.java/src/net/java/amateras/uml/java/UMLJavaUtils.java:383 | `P[]` and `P[][]` give `P` |
| Connections.ArgumentListRemoved | net.java.amateras.umleditor.java/src/net/java/amateras/uml/java/UMLJavaUtils.java:382 | `N<A>` gives `N` |
| Connections.ClassRealizesItsInterface | net.java.amateras.umleditor.java/src/net/java/amateras/uml/java/UMLJavaUtils.java:318-352 | when the children are exactly the class and an interface, and the class's single superinterface name resolves to the interface's name, the interface pass gives exactly one Realization from the class to the interface |
| Connections.ListFieldAggregatesElement | net.java.amateras.umleditor.java/src/net/java/amateras/uml/java/UMLJavaUtils.java:364-438 | when the model's only member is a non-static `List<E>` field, the children are exactly the model and another class, and `E` resolves to that class's name, the aggregation pass completes with exactly one Aggregation from that class to the model |
| Connections.ListAttributeTypeName | net.java.amateras.umleditor.java/src/net/java/amateras/uml/java/UMLJavaUtils.java:374-384 | the name a `List<E>` field is matched by is the resolved `E` |
| Synchronizer.CommandChain.Add | net.java.amateras.umleditor.java/src/net/java/amateras/uml/synchronizer/SyncAction.java:153-155 | the command is appended |
| Synchronizer.CommandChain.Execute | net.java.amateras.umleditor.java/src/net/java/amateras/uml/synchronizer/SyncAction.java:158-162 | the state reached is that of running the commands in insertion order |
| Synchronizer.CommandChain.Undo | net.java.amateras.umleditor.java/src/net/java/amateras/uml/synchronizer/SyncAction.java:165-172 | the state reached is that of undoing the reversed list; the chain itself is left unchanged |
| Synchronizer.Reverse | net.java.amateras.umleditor.java/src/net/java/amateras/uml/synchronizer/SyncAction.java:167 | the array ends in reversed order |
| Synchronizer.PerformConcat | net.java.amateras.umleditor.java/src/net/java/amateras/uml/synchronizer/SyncAction.java:158-162 | running two lists is running the first, then the second |
| Synchronizer.PerformInOrder | net.java.amateras.umleditor.java/src/net/java/amateras/uml/synchronizer/SyncAction.java:158-162 | of two commands, the first one added runs first |
| Synchronizer.UndoAfterExecuteRestores | net.java.amateras.umleditor.java/src/net/java/amateras/uml/synchronizer/SyncAction.java:158-172 | when each undo inverts its execute, undoing after executing restores the state |
| Synchronizer.SyncAction.SetActiveEditor | net.java.amateras.umleditor.java/src/net/java/amateras/uml/synchronizer/SyncAction.java:48-51 | the action becomes disabled |
| Synchronizer.SyncAction.SetTargetList | net.java.amateras.umleditor.java/src/net/java/amateras/uml/synchronizer/SyncAction.java:53-56 | the targets become the given list |
| Synchronizer.SyncAction.SelectionChanged | net.java.amateras.umleditor.java/src/net/java/amateras/uml/synchronizer/SyncAction.java:123-142 | the targets are exactly the entity models of the selected edit parts, in order, and the action is enabled exactly when there is one |
| Synchronizer.EntitiesOfConcat | net.java.amateras.umleditor.java/src/net/java/amateras/uml/synchronizer/SyncAction.java:127-134 | filtering keeps the selection's order |
| Synchronizer.EntitiesOfMembership | net.java.amateras.umleditor.java/src/net/java/amateras/uml/synchronizer/SyncAction.java:127-134 | an entity is a target exactly when a selected edit part shows it |
| Synchronizer.EntitiesOfLength | net.java.amateras.umleditor.java/src/net/java/amateras/uml/synchronizer/SyncAction.java:127-134 | there is at most one target per selected object |
| Synchronizer.SyncAction.Run | net.java.amateras.umleditor.java/src/net/java/amateras/uml/synchronizer/SyncAction.java:59-120 | the submitted chains are exactly `SyncChains` of the targets; an empty target list submits nothing |
| Synchronizer.SyncChainShape | net.java.amateras.umleditor.java/src/net/java/amateras/uml/synchronizer/SyncAction.java:90-111 | each chain deletes a target, then imports the type found for it with synchronization on, at the model's old x and y; undoing it undoes the import first |
| Synchronizer.SyncChainsConcat | net.java.amateras.umleditor.java/src/net/java/amateras/uml/synchronizer/SyncAction.java:64-119 | the targets are handled one by one, in order |
| Synchronizer.SingleTargetChain | net.java.amateras.umleditor.java/src/net/java/amateras/uml/synchronizer/SyncAction.java:90-111 | a target gets a chain exactly when its project is found and holds its erased name, and one that does not is left alone |

## Left out

- Eclipse itself is not modelled: JDT lookups (`findType`, `exists`, `getImports`,
  `getPackageFragment`, `Flags`), the workspace, editor adapters and the GEF command stack.
  Their answers are inputs, and a failing lookup is an absent value.
- `Signature.toString` is not modelled: field, return and parameter types arrive already rendered as source text.
- A `JavaModelException` thrown by `getSuperclassName` or `getSuperInterfaceNames` is not
  modelled; those facts are plain values.
- One type index serves both lookup and resolution. In the source, `getFullQName` resolves through
  the parent's own project (`parent.getJavaProject()`). `appendSubConnection` finds each child's
  type through its `project` argument, so a type from a required project is resolved against that
  other project. The model resolves every name against the same `project` map it looks types up in.
- "Found" and "exists" are one test (`n in project`). The source's `appendSubConnection` accepts any
  non-null `findType` result. `getFullQName` and `SyncAction.run` also require `exists()`. The model
  does not capture a type that is found but does not exist.
- `getTypes` and `extractTypes` are not part of this model: they only walk JDT elements.
- Project discovery in `SyncAction.run` (from the model's path or from the editor input) is the
  parameter `projectFor`. A path without a `/` makes `split("/")[1]` throw, which ends the run;
  the model does not capture that exception.
- `setTargetList` stores the caller's list itself, so later changes to that list are seen. The
  model copies the value and does not capture that aliasing.
- What `DeleteCommand` and `ImportClassModelCommand` do is not part of this model. The commands are values,
  and the command chain takes their execute and undo effects as functions.
- Logging (`printStackTrace`) is not modelled: a caught exception shows only as "not found" or an empty result.
- The regular expressions are modelled as the string functions they compute, for names without line
  terminators: `.` in `<.+?>` and `<.*>` does not match a line terminator, and the model ignores that.
- `WildcardProbe` models `replaceFirst("\\*$", type)` for a simple name without `$` or `\\`,
  which have a special meaning in a replacement string.
- A child of the diagram that is not an entity model is skipped by `appendSubConnection`. The
  source casts every child to `AbstractUMLEntityModel`, so the other models it meets are entity
  models such as notes, and they match none of its branches.
- Worked examples such as `List<String>`, `Product[]` and `List<Map<K,V>>` are proved as
  general lemmas over any such name, not as single examples.
