# Category hierarchy (PofyTools `Data/Category.cs`)

A Dafny model of the category hierarchy engine of the PofyTools framework.

**Inputs.** The engine takes a flat list of category definitions. Each definition has an id and the ids of its base (parent) categories.

**What it builds.** It creates one `CategoryData` node per definition. It then:

- links every node to the bases its ids resolve to, through the id dictionary;
- spreads the links along existing links (`AddSubcategory` / `AddSupercategory`);
- collects the leaves;
- sweeps the roots down and the leaves up;
- exports every node's links by id into a `Descriptor`.

`IsCategoryOf` answers classification queries from that descriptor. `CategoryDefinitionSet.Optimize` is the clean-up pass over a stored definition list.

**How the model represents it.**

- **Nodes.** The C# objects live in an arena, a `seq<CategoryData>`. A node's position is its identity, so two definitions with the same id still make two nodes. Link lists hold positions in insertion order.
- **The id dictionary** is a `map<string, nat>`.
- **Mutating methods** become pure functions from arena to arena.
- **Recursion.** The recursive propagation terminates only on acyclic base links. A `rank` sequence witnesses acyclicity: every link runs between nodes of different rank. The arena invariant `Valid` says that links stay in range, follow the rank and never repeat. The rank is a proof parameter; the C# objects do not carry it.
- **Propagation effect.** `AddSubcategory(n, d)` adds `d` once to the subcategory list of `n` and of every node reachable upward from `n` (`Upward`). Nothing else changes. `AddSupercategory` is the mirror image, walking downward.
- **Build phases.** Each phase of the build is its own function. `Materialize` is the loop of `Initialize(List)` (lines 137-153). The phases of `Initialize()` are `LinkAll`, `Leaves`, `RootSweep`, `LeafSweep` and `Export`, and `Construct` chains them.
- **Optimize** works on nullable strings (`Text = Null | Str`). The hierarchy works on plain strings.

Modules:

| file | module | contents |
|---|---|---|
| wrappers.dfy | Wrappers | `Option`, `Result` |
| lists.dfy | Lists | `AddOnce`, `List.RemoveAll`, `List.Remove`, index helpers |
| category_definition.dfy | CategoryDefinitions | definitions, nullable strings, the per-definition tidy step |
| category_definition_set.dfy | CategoryDefinitionSet | `Optimize` |
| category_data.dfy | CategoryNodes | nodes, descriptors, the arena invariant, both propagations, `IsCategoryOf` |
| category_data_set.dfy | CategoryHierarchy | the data set, every build phase, `Initialize`, `GetDescriptors` |
| category_data_set_as_written.dfy | CategoryHierarchyAsWritten | the linking loop exactly as written, with the unresolved-base fault |
| category_ancestry.dfy | CategoryAncestry | declared ancestors and the soundness of every built link |
| category_closure_example.dfy | CategoryClosureExample | a four-definition build whose links are not transitively closed |

**What the links do not become.** The propagation in `AddSubcategory` / `AddSupercategory` and the two sweeps look as if they aim at closed link lists:

- symmetric: B is a supercategory of A exactly when A is a subcategory of B;
- transitive: an ancestor's ancestor is an ancestor.

They do not achieve it, and the model follows the code. Take the definitions `r`, `a: r`, `b: a`, `s: b`, in that order. After the build, `a` lists `s` as a subcategory, but `s` lists only `b` and `r` as supercategories. So `IsCategoryOf(s, "a")` is false. `CategoryClosureExample.ClosureNotTransitive` proves this for every rank that orders the four definitions.

What the model proves instead:

- Every link the build makes is sound (`CategoryAncestry`). A supercategory is always a declared ancestor, and a subcategory a declared descendant.
- Each declared base is linked both ways.
- Each root becomes a supercategory of every node below it in the links the linking phase made. The root sweep adds no other supercategory.
- Each leaf becomes a subcategory of every node above it in the final links. The leaf sweep adds no other subcategory.

## Model

| member | source | states |
|---|---|---|
| Lists.AddOnce | Data/Category.cs:61 | `AddOnce` leaves the list holding the element. It keeps the old list as a prefix, grows it by at most one, brings in nothing else, and keeps a duplicate-free list duplicate-free. |
| Lists.RemoveAll | Data/Category.cs:40 | `List.RemoveAll` keeps only elements that fail the predicate, each as often as it occurred. |
| Lists.RemoveAllKeepsOrder | Data/Category.cs:40 | `List.RemoveAll` keeps the order: the result is the list's elements at the positions where the predicate fails, in increasing position order. |
| Lists.RemoveFirst | Data/Category.cs:41 | `List.Remove` returns the list unchanged when the element is absent. Otherwise it is the list with the first occurrence cut out. |
| Lists.RemoveFirstCount | Data/Category.cs:41 | `List.Remove` takes exactly one occurrence away when there is one (multiset difference). |
| CategoryDefinitions.Tidied | Data/Category.cs:40-41 | A kept definition keeps its id and has no null or empty base id left. |
| CategoryDefinitions.TidiedBaseCounts | Data/Category.cs:40-41 | Every usable base id other than the definition's own id keeps its count. The own id loses exactly one occurrence, so a repeated self-reference survives. |
| CategoryDefinitionSet.Optimize | Data/Category.cs:29-42 | The backward in-place loop leaves exactly the definitions with a non-null, non-empty id. They stay in their original order, each tidied, and agree with the forward reference `Optimized`. |
| CategoryDefinitionSet.OptimizedDefinitions | Data/Category.cs:29-42 | The reference keeps every definition with an id, in order, each tidied, and nothing without one. |
| CategoryNodes.AddSubcategory | Data/Category.cs:59-66 | `n.AddSubcategory(d)` adds `d` once to the subcategory list of `n` and of every node reachable from `n` through supercategory links. Every other list is unchanged, and the arena invariant is kept. |
| CategoryNodes.AddSubcategoryToAll | Data/Category.cs:62-65 | The `foreach` over the supercategories adds `d` at exactly the nodes reachable upward from the listed nodes. |
| CategoryNodes.AddSupercategory | Data/Category.cs:68-75 | `n.AddSupercategory(d)` adds `d` once to the supercategory list of `n` and of every node reachable from `n` through subcategory links. Nothing else changes, and the invariant is kept. |
| CategoryNodes.AddSupercategoryToAll | Data/Category.cs:71-74 | The `foreach` over the subcategories adds `d` at exactly the nodes reachable downward from the listed nodes. |
| CategoryNodes.Above | Data/Category.cs:59-66 | The nodes strictly above a node: the propagation from it reaches exactly the node and these. The node is not among them, and each of its listed supercategories is. |
| CategoryNodes.Below | Data/Category.cs:68-75 | The nodes strictly below a node: the node is not among them, and each of its listed subcategories is. |
| CategoryNodes.IsCategoryOf | Data/Category.cs:77-91 | The answer is true exactly when the query is the node's own id or one of its descriptor's supercategory ids. The live link lists are not consulted. |
| CategoryHierarchy.TryGetValue | Data/Category.cs:172 | The lookup succeeds exactly for ids in the map and yields the mapped node. |
| CategoryHierarchy.Materialize | Data/Category.cs:137-153 | One fresh, unlinked node per definition, in input order, with no leaves yet. |
| CategoryHierarchy.MaterializeIndex | Data/Category.cs:147 | The id map knows exactly the ids that occur. Each maps to the last definition carrying it, so a later duplicate replaces an earlier one. |
| CategoryHierarchy.MaterializeRoots | Data/Category.cs:149-152 | The roots are exactly the definitions with no base ids, in increasing input order. |
| CategoryHierarchy.LinkBase | Data/Category.cs:171-177 | Corrected linking step. A resolving base and the node end up linked both ways, only appending. An unresolved base id changes nothing. |
| CategoryHierarchy.LinkBases | Data/Category.cs:169-178 | After a node's base ids, every resolving base is linked both ways. |
| CategoryHierarchy.LinkFrom | Data/Category.cs:167-179 | The linking loop from node `i` on keeps the invariant and only appends. Every resolving base id of those nodes is linked both ways. |
| CategoryHierarchy.LinkAll | Data/Category.cs:167-179 | After phase 2 every resolving base id of every node is linked both ways. |
| CategoryHierarchy.Leaves | Data/Category.cs:182-186 | The leaves are exactly the nodes with an empty subcategory list, in node order. |
| CategoryHierarchy.RootPushable | Data/Category.cs:191-194 | The `foreach` over a root's subcategories is the propagation loop of `AddSupercategory`: it reaches exactly the nodes below the root. |
| CategoryHierarchy.RootSweep | Data/Category.cs:189-195 | Every root becomes a supercategory of every node below it, as the subcategory links stood. Every supercategory added is such a root. Subcategory lists are untouched and the invariant is kept. |
| CategoryHierarchy.LeafPullable | Data/Category.cs:200-203 | The `foreach` over a leaf's supercategories is the propagation loop of `AddSubcategory`: it reaches exactly the nodes above the leaf. |
| CategoryHierarchy.LeafSweep | Data/Category.cs:198-204 | Every leaf becomes a subcategory of every node above it. Every subcategory added is such a leaf. Supercategory lists are untouched and the invariant is kept. |
| CategoryHierarchy.RootedReach | Data/Category.cs:189-195 | After phase 4 of a build, every root is a supercategory of every node below it in the linked arena, and only roots were added. |
| CategoryHierarchy.SweptReach | Data/Category.cs:198-204 | After phase 5 of a build, every leaf is a subcategory of every node above it, and only leaves were added. |
| CategoryHierarchy.IdsOf | Data/Category.cs:209-216 | The exported id list has one entry per link, in link order, each the linked node's id. |
| CategoryHierarchy.Export | Data/Category.cs:206-217 | Export changes only descriptors. Each descriptor takes the node's id and appends the ids of its current links. |
| CategoryHierarchy.ExportKeepsLinks | Data/Category.cs:206-217 | Exporting keeps every link list, every definition and the arena invariant. |
| CategoryHierarchy.ConstructShape | Data/Category.cs:162-219 | A build marks the set initialised. It keeps the id map, roots and definitions, and appends the leaves found after linking. It keeps the invariant and drops no link. |
| CategoryHierarchy.ConstructLinksBases | Data/Category.cs:167-179 | After a build every base id that resolves is linked both ways. |
| CategoryHierarchy.ConstructPushesRoots | Data/Category.cs:189-195 | After a build every root is a supercategory of every node below it in the links made by the linking phase. Every supercategory added after linking is such a root. |
| CategoryHierarchy.ConstructPullsLeaves | Data/Category.cs:198-204 | After a build every leaf is a subcategory of every node above it in the final links. Every subcategory added after linking is such a leaf. |
| CategoryHierarchy.ConstructDescribesFresh | Data/Category.cs:206-217 | Nodes built with empty descriptors end up exactly described: their own id plus the ids of their final links, in order. |
| CategoryHierarchy.InitializeContent | Data/Category.cs:162-223 | `Initialize()` reports true exactly on an uninitialised set. The set is initialised afterwards, and an initialised set is returned unchanged. Ids, roots, size and definitions stay. |
| CategoryHierarchy.InitializeContentIdempotent | Data/Category.cs:164 | A second `Initialize()` changes nothing and reports false. |
| CategoryHierarchy.Initialize | Data/Category.cs:133-160 | `Initialize(list)` reports true exactly on an uninitialised set, leaves the set initialised, and leaves an initialised set alone. The nodes carry the given definitions in order. |
| CategoryHierarchy.GetDescriptors | Data/Category.cs:225-235 | One descriptor per node, in node order, each the node's own descriptor. |
| CategoryHierarchy.InitializeLinks | Data/Category.cs:133-219 | After a build from a list, the id map is last-wins and the roots are exactly the base-less definitions, in order. Every resolving base is linked both ways, every leaf is a subcategory of every node above it, and the links obey the rank. |
| CategoryHierarchy.InitializeDescribes | Data/Category.cs:206-217 | After a build from a list each descriptor holds exactly its node's id and the ids of its links, in order. |
| CategoryHierarchy.InitializeListsBases | Data/Category.cs:169-177 | After a build, every base id that names a definition appears in the node's exported supercategory ids, so `IsCategoryOf` accepts each declared base. |
| CategoryHierarchyAsWritten.LinkBaseAsWritten | Data/Category.cs:171-177 | The step as written faults exactly when the base id does not resolve, naming the node and the id. |
| CategoryHierarchyAsWritten.LinkBasesAgrees | Data/Category.cs:169-178 | A node's loop as written succeeds exactly when all its base ids resolve. Then it agrees with the corrected loop. |
| CategoryHierarchyAsWritten.LinkFromAgrees | Data/Category.cs:167-179 | The linking phase as written succeeds exactly when every base id of every node resolves. Then it agrees with the corrected phase. |
| CategoryHierarchyAsWritten.InitializeAsWrittenAgrees | Data/Category.cs:133-177 | A build as written succeeds exactly when every base id names some definition. Then it equals the corrected build. |
| CategoryHierarchyAsWritten.DanglingBaseFaults | Data/Category.cs:172-177 | One definition whose only base id names nothing: the code as written faults, while the corrected build succeeds. |
| CategoryAncestry.AddSubcategorySound | Data/Category.cs:59-66 | `n.AddSubcategory(d)` for a declared ancestor `n` of `d` links only declared ancestors to declared descendants. |
| CategoryAncestry.AddSupercategorySound | Data/Category.cs:68-75 | `n.AddSupercategory(d)` for a declared ancestor `d` of `n` links only declared ancestors to declared descendants. |
| CategoryAncestry.LinkFromSound | Data/Category.cs:167-179 | The linking phase keeps every link between a node and one of its declared ancestors. |
| CategoryAncestry.RootPushSound | Data/Category.cs:191-194 | Pushing a root down to every node below it links only declared relatives. |
| CategoryAncestry.LeafPullSound | Data/Category.cs:200-203 | Pulling a leaf up to every node above it links only declared relatives. |
| CategoryAncestry.RootSweepSound | Data/Category.cs:189-195 | The root sweep keeps every link between declared relatives. |
| CategoryAncestry.LeafSweepSound | Data/Category.cs:198-204 | The leaf sweep keeps every link between declared relatives. |
| CategoryAncestry.ConstructSound | Data/Category.cs:162-219 | A build from a sound set links only declared relatives. |
| CategoryAncestry.InitializeSound | Data/Category.cs:133-219 | After a build from a list, every supercategory of a node is a declared ancestor and every subcategory a declared descendant. |
| CategoryAncestry.IsCategoryOfSound | Data/Category.cs:77-91 | After a build, `IsCategoryOf` accepts only the node's own id or the id of a declared ancestor. |
| CategoryClosureExample.ClosureNotTransitive | Data/Category.cs:162-219 | For `r; a: r; b: a; s: b`, `a` lists `s` as a subcategory, but `s` exports only `b` and `r` as supercategories. The built links are neither symmetric nor transitive. |

## Left out

- `DataUtility.OptimizeDefinitions`, called at Data/Category.cs:44 at the end of `Optimize`, is not part of this model: its source is not available. The model covers the loop before it.
- `CategoryDefinitionSet.Save` (lines 47-51) and the set's constructor are file I/O and serialisation.
- `AddOnce` is a list extension from the framework's `Extensions` namespace, which is not part of this model. It is modelled as "append unless already present", which is what its name and its use in the propagation need.
- Null ids in the hierarchy are not modelled: the hierarchy works on plain strings. In C#, a null definition id at line 147 and a null base id at line 172 make the dictionary throw `ArgumentNullException`. `Optimize` does model null and empty strings.
- Cyclic base links: the C# propagation recurses forever on a cycle, ending in a stack overflow. Every build in the model requires `Acyclic`, witnessed by a rank sequence, and the model says nothing about cyclic input.
- CategoryHierarchy.Initialize: requires an uninitialised set to be the freshly constructed one (`Fresh`). Both constructors (lines 113-121) call `Initialize` at once, so no other uninitialised state arises. `InitializeContent` covers `Initialize()` on any consistent set.
- CategoryHierarchyAsWritten.InitializeAsWritten: reports the fault when a base id first fails to resolve. The C# code throws `NullReferenceException` later: where the stored null is dereferenced, in a propagation or the leaf sweep, or at the latest at export (line 215). The model records that the build fails and which base caused it, not which line throws.
- The descriptor id before export is null in C#. The model writes the empty string, which nothing reads before export sets it.
- In the hierarchy, object identity and aliasing are modelled by arena positions. A `foreach` over a list that the loop body may extend is modelled as a walk over the list's value at loop entry. This is exact here, because `AddSubcategory` only writes subcategory lists while walking supercategory lists, and vice versa.
- CategoryDefinitionSet.Optimize: treats every list entry as a separate, non-null definition with a non-null base id list. In C#, a null entry throws `NullReferenceException` at `element.id` (line 34), and a null `baseIds` throws at line 40. The same definition object listed twice is tidied twice through the alias. For example, `{id "a", baseIds ["a", "a"]}` at positions 0 and 1 ends with base ids `[]` at both positions in C#, and `["a"]` in the model.
- Dictionary capacity arguments, Unity serialisation attributes, `ICategorizable` and the obsolete-attribute metadata carry no behaviour.
- Symmetry and transitivity of the built links are not proved. The code does not provide them; `CategoryClosureExample.ClosureNotTransitive` gives the counterexample.

## Findings

| source | as written | input that shows it | evidently intended | confidence | as-written member | corrected member |
|---|---|---|---|---|---|---|
| Data/Category.cs:172-177 | `data.AddSupercategory(baseData)` runs even when `TryGetValue` found no base, so `null` enters the supercategory list and is dereferenced later, at the latest when its id is exported (line 215). | One definition `Dog` with base ids `["Ghost"]`, where no definition has id `Ghost` | The call belongs inside the `if`: an unresolved base id is skipped | not executed | CategoryHierarchyAsWritten.DanglingBaseFaults | CategoryHierarchy.LinkBase |
