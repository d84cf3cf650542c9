/** `CategoryDataSet`: builds the hierarchy from a definition list in one
    guarded pass (materialise, link, collect leaves, sweep roots and leaves,
    export descriptors) and hands out the descriptors. */
module CategoryHierarchy {
  import opened Wrappers
  import opened Lists
  import opened CategoryDefinitions
  import opened CategoryNodes

  /** The data set: the nodes in input order, the id map, the root and leaf
      lists and the `IsInitialized` flag. The C# names differ for the first
      two: the node list `content` here is the C# field `_content`, and the
      id map `index` here is the C# dictionary `content`. */
  datatype CategoryDataSet = CategoryDataSet(
    content: Arena,
    index: map<string, nat>,
    rootCategories: seq<nat>,
    leafCategory: seq<nat>,
    isInitialized: bool)

  /** The state both constructors hand to `Initialize`. */
  const Fresh := CategoryDataSet([], map[], [], [], false)

  /** `Dictionary.TryGetValue` on the id map. */
  function TryGetValue(index: map<string, nat>, id: string): (r: Option<nat>)
    ensures r.Some? <==> id in index
    ensures r.Some? ==> r.value == index[id]
  {
    if id in index then Some(index[id]) else None
  }

  /** Phase 1 (lines 137-153): one fresh node per definition, in input
      order; the id map overwritten entry by entry; the definitions without
      base ids collected as roots. */
  function Materialize(defs: seq<CategoryDefinition>): (s: CategoryDataSet)
    ensures !s.isInitialized && s.leafCategory == []
    ensures |s.content| == |defs|
    ensures forall k :: 0 <= k < |defs| ==> s.content[k] == NewNode(defs[k])
  {
    if defs == [] then Fresh
    else
      var s := Materialize(defs[..|defs| - 1]);
      var last := |defs| - 1;
      var data := NewNode(defs[last]);
      s.(content := s.content + [data],
         index := s.index[data.id() := last],
         rootCategories := if defs[last].baseIds == [] then s.rootCategories + [last] else s.rootCategories)
  }

  /** `index` maps every id occurring in `defs` to the last position
      carrying it, and knows no other id. */
  ghost predicate IndexedByLast(defs: seq<CategoryDefinition>, index: map<string, nat>) {
    && (forall id :: id in index <==> exists k :: 0 <= k < |defs| && defs[k].id == id)
    && (forall id :: id in index ==> index[id] < |defs| && defs[index[id]].id == id)
    && (forall id, k :: id in index && index[id] < k < |defs| ==> defs[k].id != id)
  }

  /** The id map knows exactly the ids that occur, and maps each to the LAST
      definition carrying it: a later duplicate silently replaces an earlier
      one. */
  lemma {:induction false} MaterializeIndex(defs: seq<CategoryDefinition>)
    ensures IndexedByLast(defs, Materialize(defs).index)
  {
    if defs != [] {
      var front := defs[..|defs| - 1];
      MaterializeIndex(front);
      IndexAppend(defs, Materialize(front).index, Materialize(defs).index);
    }
  }

  /** The induction step of `MaterializeIndex`: the last definition's id
      is (re)mapped to the last position. */
  lemma IndexAppend(defs: seq<CategoryDefinition>, before: map<string, nat>, index: map<string, nat>)
    requires defs != []
    requires IndexedByLast(defs[..|defs| - 1], before)
    requires index == before[defs[|defs| - 1].id := |defs| - 1]
    ensures IndexedByLast(defs, index)
  {
    var front := defs[..|defs| - 1];
    var last := |defs| - 1;
    assert forall k :: 0 <= k < |front| ==> front[k] == defs[k];
    forall id | id in index
      ensures index[id] < |defs| && defs[index[id]].id == id
      ensures forall k :: index[id] < k < |defs| ==> defs[k].id != id
    {
      if id != defs[last].id {
        assert id in before && index[id] == before[id];
        assert before[id] < |front| && front[before[id]].id == id;
      }
    }
    forall id | exists k :: 0 <= k < |defs| && defs[k].id == id
      ensures id in index
    {
      var k :| 0 <= k < |defs| && defs[k].id == id;
      if k < last {
        assert front[k].id == id;
        assert id in before;
      }
    }
  }

  /** The roots are exactly the definitions without base ids, in input
      order. */
  lemma {:induction false} MaterializeRoots(defs: seq<CategoryDefinition>)
    ensures var roots := Materialize(defs).rootCategories;
      && (forall j :: 0 <= j < |roots| ==> roots[j] < |defs|)
      && Increasing(roots)
      && (forall k: nat :: k in roots <==> k < |defs| && defs[k].baseIds == [])
  {
    if defs != [] {
      var front := defs[..|defs| - 1];
      MaterializeRoots(front);
      assert forall k :: 0 <= k < |front| ==> front[k] == defs[k];
      RootsAppend(defs, Materialize(front).rootCategories, Materialize(defs).rootCategories);
    }
  }

  /** The induction step of `MaterializeRoots`: the last definition is
      appended to the roots exactly when it has no base ids. */
  lemma RootsAppend(defs: seq<CategoryDefinition>, before: seq<nat>, roots: seq<nat>)
    requires defs != []
    requires roots == if defs[|defs| - 1].baseIds == [] then before + [|defs| - 1] else before
    requires forall j :: 0 <= j < |before| ==> before[j] < |defs| - 1
    requires Increasing(before)
    requires forall k: nat :: k in before <==> k < |defs| - 1 && defs[k].baseIds == []
    ensures forall j :: 0 <= j < |roots| ==> roots[j] < |defs|
    ensures Increasing(roots)
    ensures forall k: nat :: k in roots <==> k < |defs| && defs[k].baseIds == []
  {
  }

  /** Every entry of the id map names a node of an arena of size `n`. */
  ghost predicate IndexInRange(index: map<string, nat>, n: nat) {
    forall id :: id in index ==> index[id] < n
  }

  /** Every base id that resolves names a node ranked strictly lower than the
      node declaring it: the base links form no cycle. */
  ghost predicate BasesRanked(defs: seq<CategoryDefinition>, index: map<string, nat>, rank: seq<nat>) {
    && |rank| == |defs|
    && IndexInRange(index, |defs|)
    && forall i, k :: 0 <= i < |defs| && 0 <= k < |defs[i].baseIds| && defs[i].baseIds[k] in index ==>
         rank[index[defs[i].baseIds[k]]] < rank[i]
  }

  /** The definitions' base links, resolved through the id map that
      materialisation builds, are acyclic as witnessed by `rank`. */
  ghost predicate Acyclic(defs: seq<CategoryDefinition>, rank: seq<nat>) {
    BasesRanked(defs, Materialize(defs).index, rank)
  }

  /** `parent` lists `child` as a subcategory and `child` lists `parent` as a
      supercategory. */
  ghost predicate LinkedPair(g: Arena, parent: nat, child: nat) {
    parent < |g| && child < |g| &&
    child in g[parent].subcategories && parent in g[child].supercategories
  }

  /** Every base id of nodes `from`, `from + 1`, ... that resolves is linked
      to its node. */
  ghost predicate DirectlyLinked(g: Arena, index: map<string, nat>, from: nat) {
    forall n, k :: from <= n < |g| && 0 <= k < |g[n].definition.baseIds| && g[n].definition.baseIds[k] in index ==>
      LinkedPair(g, index[g[n].definition.baseIds[k]], n)
  }

  lemma LinkedPairGrows(g: Arena, r: Arena, parent: nat, child: nat)
    requires LinkedPair(g, parent, child) && Grows(g, r)
    ensures LinkedPair(r, parent, child)
  {
    assert g[parent].subcategories <= r[parent].subcategories;
    assert g[child].supercategories <= r[child].supercategories;
  }

  /** One iteration of the linking loop (lines 171-177) with the lookup
      failure handled: when the base id resolves, the base learns the node as
      a subcategory and the node learns the base as a supercategory; when it
      does not, nothing happens. */
  function LinkBase(g: Arena, rank: seq<nat>, index: map<string, nat>, i: nat, b: string): (r: Arena)
    requires Valid(g, rank) && i < |g| && IndexInRange(index, |g|)
    requires b in index ==> rank[index[b]] < rank[i]
    ensures Valid(r, rank) && Grows(g, r)
    ensures b in index ==> LinkedPair(r, index[b], i)
    ensures b !in index ==> r == g
  {
    match TryGetValue(index, b)
    case Some(j) =>
      var g1 := AddSubcategory(g, rank, j, i);
      SubcategoryAddedGrows(g, g1, Upward(Supers(g), rank, j), i);
      var r := AddSupercategory(g1, rank, i, j);
      SupercategoryAddedGrows(g1, r, Downward(Subs(g1), rank, i), j);
      GrowsTransitive(g, g1, r);
      SubcategoryAddedReaches(g, g1, Upward(Supers(g), rank, j), i, j);
      SupercategoryAddedKeepsSubs(g1, r, Downward(Subs(g1), rank, i), j, j);
      SupercategoryAddedReaches(g1, r, Downward(Subs(g1), rank, i), j, i);
      r
    case None => g
  }

  /** The inner loop over one node's base ids. */
  function LinkBases(g: Arena, rank: seq<nat>, index: map<string, nat>, i: nat, bs: seq<string>): (r: Arena)
    requires Valid(g, rank) && i < |g| && IndexInRange(index, |g|)
    requires forall k :: 0 <= k < |bs| && bs[k] in index ==> rank[index[bs[k]]] < rank[i]
    ensures Valid(r, rank) && Grows(g, r)
    ensures forall k :: 0 <= k < |bs| && bs[k] in index ==> LinkedPair(r, index[bs[k]], i)
    decreases |bs|
  {
    if bs == [] then g
    else
      var g1 := LinkBase(g, rank, index, i, bs[0]);
      var r := LinkBases(g1, rank, index, i, bs[1..]);
      GrowsTransitive(g, g1, r);
      LinkBasesStep(g1, r, index, i, bs);
      r
  }

  lemma LinkBasesStep(g1: Arena, r: Arena, index: map<string, nat>, i: nat, bs: seq<string>)
    requires bs != [] && Grows(g1, r) && (bs[0] in index ==> LinkedPair(g1, index[bs[0]], i))
    requires forall k :: 0 <= k < |bs[1..]| && bs[1..][k] in index ==> LinkedPair(r, index[bs[1..][k]], i)
    ensures forall k :: 0 <= k < |bs| && bs[k] in index ==> LinkedPair(r, index[bs[k]], i)
  {
    if bs[0] in index {
      LinkedPairGrows(g1, r, index[bs[0]], i);
    }
    forall k | 0 < k < |bs| && bs[k] in index
      ensures LinkedPair(r, index[bs[k]], i)
    {
      assert bs[1..][k - 1] == bs[k];
    }
  }

  /** The ranking of all definitions, read off for node `i`. */
  lemma BasesOfNodeRanked(g: Arena, index: map<string, nat>, rank: seq<nat>, i: nat)
    requires BasesRanked(Definitions(g), index, rank) && i < |g|
    ensures forall k :: 0 <= k < |g[i].definition.baseIds| && g[i].definition.baseIds[k] in index ==>
      rank[index[g[i].definition.baseIds[k]]] < rank[i]
  {
    assert Definitions(g)[i] == g[i].definition;
  }

  lemma DirectlyLinkedStep(g: Arena, r: Arena, index: map<string, nat>, i: nat)
    requires Grows(g, r) && i < |g| && DirectlyLinked(r, index, i + 1)
    requires forall k :: 0 <= k < |g[i].definition.baseIds| && g[i].definition.baseIds[k] in index ==>
      LinkedPair(g, index[g[i].definition.baseIds[k]], i)
    ensures DirectlyLinked(r, index, i)
  {
    forall k | 0 <= k < |g[i].definition.baseIds| && g[i].definition.baseIds[k] in index
      ensures LinkedPair(r, index[g[i].definition.baseIds[k]], i)
    {
      LinkedPairGrows(g, r, index[g[i].definition.baseIds[k]], i);
    }
  }

  /** The outer loop of phase 2, from node `i` on. */
  function LinkFrom(g: Arena, rank: seq<nat>, index: map<string, nat>, i: nat): (r: Arena)
    requires Valid(g, rank) && i <= |g| && BasesRanked(Definitions(g), index, rank)
    ensures Valid(r, rank) && Grows(g, r)
    ensures DirectlyLinked(r, index, i)
    decreases |g| - i
  {
    if i == |g| then g
    else
      BasesOfNodeRanked(g, index, rank, i);
      var g1 := LinkBases(g, rank, index, i, g[i].definition.baseIds);
      GrowsKeepsDefinitions(g, g1);
      var r := LinkFrom(g1, rank, index, i + 1);
      GrowsTransitive(g, g1, r);
      DirectlyLinkedStep(g1, r, index, i);
      r
  }

  /** Phase 2, the linking loop of lines 167-179. */
  function LinkAll(g: Arena, rank: seq<nat>, index: map<string, nat>): (r: Arena)
    requires Valid(g, rank) && BasesRanked(Definitions(g), index, rank)
    ensures Valid(r, rank) && Grows(g, r)
    ensures DirectlyLinked(r, index, 0)
  {
    LinkFrom(g, rank, index, 0)
  }

  /** A node with an empty subcategory list. */
  predicate IsLeaf(data: CategoryData) {
    data.subcategories == []
  }

  /** Phase 3 (lines 182-186): the nodes whose subcategory list is empty, in
      node order. */
  function Leaves(g: Arena): (r: seq<nat>)
    ensures Increasing(r)
    ensures forall k: nat :: k in r <==> k < |g| && g[k].subcategories == []
  {
    IndicesWhere(g, IsLeaf)
  }

  /** Every root of `roots` is listed as a supercategory by every node below
      it in the subcategory structure `sb`. */
  ghost predicate RootsReach(sb: seq<seq<nat>>, rank: seq<nat>, roots: seq<nat>, r: Arena)
    requires RankedDown(sb, rank) && forall k :: 0 <= k < |roots| ==> roots[k] < |sb|
  {
    && |r| == |sb|
    && forall k, m :: 0 <= k < |roots| && m in Below(sb, rank, roots[k]) ==> roots[k] in r[m].supercategories
  }

  /** Every supercategory `r` lists beyond `base` is a root of `roots`, and
      the listing node lies below that root in `sb`. */
  ghost predicate OnlyRootsAdded(base: Arena, sb: seq<seq<nat>>, rank: seq<nat>, roots: seq<nat>, r: Arena)
    requires RankedDown(sb, rank)
  {
    && |r| == |base|
    && forall m, x :: 0 <= m < |base| && x in r[m].supercategories && x !in base[m].supercategories ==>
         x in roots && x < |sb| && m in Below(sb, rank, x)
  }

  /** The `foreach` of the root sweep (lines 191-194) is the propagation
      loop of `AddSupercategory` itself: its requirements hold for the
      root's own subcategory list, which it walks down to `Below`. */
  lemma RootPushable(g: Arena, rank: seq<nat>, root: nat)
    requires Valid(g, rank) && root < |g|
    ensures rank[root] < Ceiling(rank)
    ensures forall k :: 0 <= k < |g[root].subcategories| ==>
      g[root].subcategories[k] < |g| && rank[root] < rank[g[root].subcategories[k]]
    ensures Below(Subs(g), rank, root) == DownwardAll(Subs(g), rank, g[root].subcategories, rank[root])
  {
    assert Subs(g)[root] == g[root].subcategories;
  }

  /** Phase 4 (lines 189-195): `sub.AddSupercategory(root)` for every `sub`
      in a root's subcategory list makes the root a supercategory of every
      node below it, and adds nothing else. Only supercategory lists change,
      so the list being walked stays as it was when the walk began. */
  function RootSweep(g: Arena, rank: seq<nat>, roots: seq<nat>): (r: Arena)
    requires Valid(g, rank)
    requires forall k :: 0 <= k < |roots| ==> roots[k] < |g|
    ensures Valid(r, rank) && Grows(g, r) && Subs(r) == Subs(g)
    ensures RootsReach(Subs(g), rank, roots, r)
    ensures OnlyRootsAdded(g, Subs(g), rank, roots, r)
    decreases |roots|
  {
    if roots == [] then g
    else
      var root := roots[0];
      RootPushable(g, rank, root);
      var g1 := AddSupercategoryToAll(g, rank, g[root].subcategories, root, rank[root]);
      SupercategoryAddedGrows(g, g1, Below(Subs(g), rank, root), root);
      SupercategoryAddedFrames(g, g1, Below(Subs(g), rank, root), root);
      var r := RootSweep(g1, rank, roots[1..]);
      GrowsTransitive(g, g1, r);
      RootsReachStep(g, g1, r, rank, roots);
      OnlyRootsAddedStep(g, g1, r, rank, roots);
      r
  }

  lemma RootsReachStep(g: Arena, g1: Arena, r: Arena, rank: seq<nat>, roots: seq<nat>)
    requires RankedDown(Subs(g), rank) && roots != [] && forall k :: 0 <= k < |roots| ==> roots[k] < |g|
    requires SupercategoryAddedAt(g, g1, Below(Subs(g), rank, roots[0]), roots[0])
    requires Subs(g1) == Subs(g) && Grows(g1, r)
    requires RootsReach(Subs(g1), rank, roots[1..], r)
    ensures RootsReach(Subs(g), rank, roots, r)
  {
    forall k, m | 0 <= k < |roots| && m in Below(Subs(g), rank, roots[k])
      ensures roots[k] in r[m].supercategories
    {
      if k == 0 {
        SupercategoryAddedReaches(g, g1, Below(Subs(g), rank, roots[0]), roots[0], m);
        GrowsKeepsEntries(g1, r, m, roots[0]);
      } else {
        assert roots[1..][k - 1] == roots[k];
      }
    }
  }

  lemma OnlyRootsAddedStep(g: Arena, g1: Arena, r: Arena, rank: seq<nat>, roots: seq<nat>)
    requires RankedDown(Subs(g), rank) && roots != [] && roots[0] < |g|
    requires SupercategoryAddedAt(g, g1, Below(Subs(g), rank, roots[0]), roots[0])
    requires Subs(g1) == Subs(g)
    requires OnlyRootsAdded(g1, Subs(g1), rank, roots[1..], r)
    ensures OnlyRootsAdded(g, Subs(g), rank, roots, r)
  {
    forall m, x | 0 <= m < |g| && x in r[m].supercategories && x !in g[m].supercategories
      ensures x in roots && x < |g| && m in Below(Subs(g), rank, x)
    {
      if x !in g1[m].supercategories {
        assert x in roots[1..];
      }
    }
  }

  /** Every leaf of `leaves` is listed as a subcategory by every node above
      it in the supercategory structure `sp`. */
  ghost predicate LeavesReach(sp: seq<seq<nat>>, rank: seq<nat>, leaves: seq<nat>, r: Arena)
    requires RankedUp(sp, rank) && forall k :: 0 <= k < |leaves| ==> leaves[k] < |sp|
  {
    && |r| == |sp|
    && forall k, m :: 0 <= k < |leaves| && m in Above(sp, rank, leaves[k]) ==> leaves[k] in r[m].subcategories
  }

  /** Every subcategory `r` lists beyond `base` is a leaf of `leaves`, and
      the listing node lies above that leaf in `sp`. */
  ghost predicate OnlyLeavesAdded(base: Arena, sp: seq<seq<nat>>, rank: seq<nat>, leaves: seq<nat>, r: Arena)
    requires RankedUp(sp, rank)
  {
    && |r| == |base|
    && forall m, x :: 0 <= m < |base| && x in r[m].subcategories && x !in base[m].subcategories ==>
         x in leaves && x < |sp| && m in Above(sp, rank, x)
  }

  /** The `foreach` of the leaf sweep (lines 200-203) is the propagation
      loop of `AddSubcategory` itself: its requirements hold for the leaf's
      own supercategory list, which it walks up to `Above`. */
  lemma LeafPullable(g: Arena, rank: seq<nat>, leaf: nat)
    requires Valid(g, rank) && leaf < |g|
    ensures forall k :: 0 <= k < |g[leaf].supercategories| ==>
      g[leaf].supercategories[k] < |g| && rank[g[leaf].supercategories[k]] < rank[leaf]
    ensures Above(Supers(g), rank, leaf) == UpwardAll(Supers(g), rank, g[leaf].supercategories, rank[leaf])
  {
    assert Supers(g)[leaf] == g[leaf].supercategories;
  }

  /** Phase 5 (lines 198-204): `super.AddSubcategory(leaf)` for every
      `super` in a leaf's supercategory list makes the leaf a subcategory of
      every node above it, and adds nothing else. Only subcategory lists
      change, so the list being walked stays as it was when the walk began. */
  function LeafSweep(g: Arena, rank: seq<nat>, leaves: seq<nat>): (r: Arena)
    requires Valid(g, rank)
    requires forall k :: 0 <= k < |leaves| ==> leaves[k] < |g|
    ensures Valid(r, rank) && Grows(g, r) && Supers(r) == Supers(g)
    ensures LeavesReach(Supers(g), rank, leaves, r)
    ensures OnlyLeavesAdded(g, Supers(g), rank, leaves, r)
    decreases |leaves|
  {
    if leaves == [] then g
    else
      var leaf := leaves[0];
      LeafPullable(g, rank, leaf);
      var g1 := AddSubcategoryToAll(g, rank, g[leaf].supercategories, leaf, rank[leaf]);
      SubcategoryAddedGrows(g, g1, Above(Supers(g), rank, leaf), leaf);
      SubcategoryAddedFrames(g, g1, Above(Supers(g), rank, leaf), leaf);
      var r := LeafSweep(g1, rank, leaves[1..]);
      GrowsTransitive(g, g1, r);
      LeavesReachStep(g, g1, r, rank, leaves);
      OnlyLeavesAddedStep(g, g1, r, rank, leaves);
      r
  }

  lemma LeavesReachStep(g: Arena, g1: Arena, r: Arena, rank: seq<nat>, leaves: seq<nat>)
    requires RankedUp(Supers(g), rank) && leaves != [] && forall k :: 0 <= k < |leaves| ==> leaves[k] < |g|
    requires SubcategoryAddedAt(g, g1, Above(Supers(g), rank, leaves[0]), leaves[0])
    requires Supers(g1) == Supers(g) && Grows(g1, r)
    requires LeavesReach(Supers(g1), rank, leaves[1..], r)
    ensures LeavesReach(Supers(g), rank, leaves, r)
  {
    forall k, m | 0 <= k < |leaves| && m in Above(Supers(g), rank, leaves[k])
      ensures leaves[k] in r[m].subcategories
    {
      if k == 0 {
        SubcategoryAddedReaches(g, g1, Above(Supers(g), rank, leaves[0]), leaves[0], m);
        GrowsKeepsEntries(g1, r, m, leaves[0]);
      } else {
        assert leaves[1..][k - 1] == leaves[k];
      }
    }
  }

  lemma OnlyLeavesAddedStep(g: Arena, g1: Arena, r: Arena, rank: seq<nat>, leaves: seq<nat>)
    requires RankedUp(Supers(g), rank) && leaves != [] && leaves[0] < |g|
    requires SubcategoryAddedAt(g, g1, Above(Supers(g), rank, leaves[0]), leaves[0])
    requires Supers(g1) == Supers(g)
    requires OnlyLeavesAdded(g1, Supers(g1), rank, leaves[1..], r)
    ensures OnlyLeavesAdded(g, Supers(g), rank, leaves, r)
  {
    forall m, x | 0 <= m < |g| && x in r[m].subcategories && x !in g[m].subcategories
      ensures x in leaves && x < |g| && m in Above(Supers(g), rank, x)
    {
      if x !in g1[m].subcategories {
        assert x in leaves[1..];
      }
    }
  }

  /** The ids of the nodes `ns`, in order. */
  function IdsOf(g: Arena, ns: seq<nat>): (r: seq<string>)
    requires forall k :: 0 <= k < |ns| ==> ns[k] < |g|
    ensures |r| == |ns| && forall k :: 0 <= k < |ns| ==> r[k] == g[ns[k]].id()
  {
    if ns == [] then [] else [g[ns[0]].id()] + IdsOf(g, ns[1..])
  }

  /** One iteration of the export loop (lines 208-216): the descriptor takes
      the node's id and gains the ids of its current links, after whatever it
      already held. */
  function Describe(g: Arena, m: nat): (r: CategoryData)
    requires InRange(g) && m < |g|
  {
    var data := g[m];
    data.(descriptor := Descriptor(
      data.id(),
      data.descriptor.subcategoryIds + IdsOf(g, data.subcategories),
      data.descriptor.supercategoryIds + IdsOf(g, data.supercategories)))
  }

  /** `r` is `g` with every descriptor filled in from the links of `g`. */
  ghost predicate DescribedFrom(g: Arena, r: Arena)
    requires InRange(g)
  {
    && |r| == |g|
    && forall m :: 0 <= m < |g| ==>
         && r[m].definition == g[m].definition
         && r[m].subcategories == g[m].subcategories
         && r[m].supercategories == g[m].supercategories
         && r[m].descriptor.id == g[m].id()
         && r[m].descriptor.subcategoryIds == g[m].descriptor.subcategoryIds + IdsOf(g, g[m].subcategories)
         && r[m].descriptor.supercategoryIds == g[m].descriptor.supercategoryIds + IdsOf(g, g[m].supercategories)
  }

  /** Phase 6 (lines 206-217): every node exports its links by id. Ids never
      change, so describing node after node reads the same ids as describing
      them all at once. */
  function Export(g: Arena): (r: Arena)
    requires InRange(g)
    ensures DescribedFrom(g, r)
  {
    seq(|g|, m requires 0 <= m < |g| => Describe(g, m))
  }

  /** What `Initialize()` needs of an uninitialised data set: consistent
      links and an acyclic, in-range id map, and root and leaf lists that
      name nodes. */
  ghost predicate Buildable(s: CategoryDataSet, rank: seq<nat>) {
    && Valid(s.content, rank)
    && BasesRanked(Definitions(s.content), s.index, rank)
    && (forall k :: 0 <= k < |s.rootCategories| ==> s.rootCategories[k] < |s.content|)
    && (forall k :: 0 <= k < |s.leafCategory| ==> s.leafCategory[k] < |s.content|)
  }

  /** The arena after phase 2. */
  function Linked(s: CategoryDataSet, rank: seq<nat>): (g: Arena)
    requires Buildable(s, rank)
    ensures Valid(g, rank) && Grows(s.content, g) && DirectlyLinked(g, s.index, 0)
  {
    LinkAll(s.content, rank, s.index)
  }

  /** The leaf list after phase 3. */
  function LeavesFound(s: CategoryDataSet, rank: seq<nat>): (r: seq<nat>)
    requires Buildable(s, rank)
    ensures forall k :: 0 <= k < |r| ==> r[k] < |s.content|
  {
    s.leafCategory + Leaves(Linked(s, rank))
  }

  /** The arena after phase 4. */
  function Rooted(s: CategoryDataSet, rank: seq<nat>): (g: Arena)
    requires Buildable(s, rank)
    ensures Valid(g, rank) && Grows(Linked(s, rank), g) && Subs(g) == Subs(Linked(s, rank))
  {
    RootSweep(Linked(s, rank), rank, s.rootCategories)
  }

  /** What the root sweep did, in terms of the links after phase 2. */
  lemma RootedReach(s: CategoryDataSet, rank: seq<nat>)
    requires Buildable(s, rank)
    ensures RootsReach(Subs(Linked(s, rank)), rank, s.rootCategories, Rooted(s, rank))
    ensures OnlyRootsAdded(Linked(s, rank), Subs(Linked(s, rank)), rank, s.rootCategories, Rooted(s, rank))
  {
  }

  /** The arena after phase 5. */
  function Swept(s: CategoryDataSet, rank: seq<nat>): (g: Arena)
    requires Buildable(s, rank)
    ensures Valid(g, rank) && Grows(Rooted(s, rank), g) && Supers(g) == Supers(Rooted(s, rank))
  {
    LeafSweep(Rooted(s, rank), rank, LeavesFound(s, rank))
  }

  /** What the leaf sweep did, in terms of the links after phase 4. */
  lemma SweptReach(s: CategoryDataSet, rank: seq<nat>)
    requires Buildable(s, rank)
    ensures LeavesReach(Supers(Rooted(s, rank)), rank, LeavesFound(s, rank), Swept(s, rank))
    ensures OnlyLeavesAdded(Rooted(s, rank), Supers(Rooted(s, rank)), rank, LeavesFound(s, rank), Swept(s, rank))
  {
  }

  /** The body of `Initialize()` (lines 166-219) on an uninitialised set:
      link, collect the leaves, sweep roots, sweep leaves, export. */
  function Construct(s: CategoryDataSet, rank: seq<nat>): (r: CategoryDataSet)
    requires Buildable(s, rank)
  {
    s.(content := Export(Swept(s, rank)), leafCategory := LeavesFound(s, rank), isInitialized := true)
  }

  /** Two arenas with the same definitions give the same ids. */
  lemma IdsOfSameDefinitions(g: Arena, h: Arena, ns: seq<nat>)
    requires |g| == |h| && forall m :: 0 <= m < |g| ==> g[m].definition == h[m].definition
    requires forall k :: 0 <= k < |ns| ==> ns[k] < |g|
    ensures IdsOf(g, ns) == IdsOf(h, ns)
  {
  }

  /** Exporting changes descriptors only: the links, and so the arena
      invariant, carry over. */
  lemma ExportKeepsLinks(g: Arena, rank: seq<nat>)
    requires Valid(g, rank)
    ensures Subs(Export(g)) == Subs(g) && Supers(Export(g)) == Supers(g)
    ensures Definitions(Export(g)) == Definitions(g)
    ensures Valid(Export(g), rank)
  {
    var r := Export(g);
    assert forall m :: 0 <= m < |g| ==> Subs(r)[m] == Subs(g)[m];
    assert forall m :: 0 <= m < |g| ==> Supers(r)[m] == Supers(g)[m];
    assert forall m :: 0 <= m < |g| ==> Definitions(r)[m] == Definitions(g)[m];
  }

  /** The whole build only appends links. */
  lemma SweptGrows(s: CategoryDataSet, rank: seq<nat>)
    requires Buildable(s, rank)
    ensures Grows(s.content, Swept(s, rank)) && Grows(Linked(s, rank), Swept(s, rank))
  {
    GrowsTransitive(s.content, Linked(s, rank), Rooted(s, rank));
    GrowsTransitive(s.content, Rooted(s, rank), Swept(s, rank));
    GrowsTransitive(Linked(s, rank), Rooted(s, rank), Swept(s, rank));
  }

  /** One build keeps the id map, the roots, the definitions and the arena
      invariant, appends the leaves found after linking, marks the set
      initialised and drops no link that was there. */
  lemma ConstructShape(s: CategoryDataSet, rank: seq<nat>)
    requires Buildable(s, rank)
    ensures var r := Construct(s, rank);
      && r.isInitialized && r.index == s.index && r.rootCategories == s.rootCategories
      && r.leafCategory == s.leafCategory + Leaves(Linked(s, rank))
      && |r.content| == |s.content| && Definitions(r.content) == Definitions(s.content)
      && Valid(r.content, rank)
      && (forall m :: 0 <= m < |s.content| ==>
            s.content[m].subcategories <= r.content[m].subcategories &&
            s.content[m].supercategories <= r.content[m].supercategories)
  {
    SweptGrows(s, rank);
    ExportGrows(s.content, Swept(s, rank), rank);
  }

  /** Exporting a grown arena keeps it grown from the original, apart from
      the descriptors. */
  lemma ExportGrows(g: Arena, h: Arena, rank: seq<nat>)
    requires Grows(g, h) && Valid(h, rank)
    ensures var r := Export(h);
      && |r| == |g| && Definitions(r) == Definitions(g) && Valid(r, rank)
      && (forall m :: 0 <= m < |g| ==>
            g[m].subcategories <= r[m].subcategories && g[m].supercategories <= r[m].supercategories)
  {
    GrowsKeepsDefinitions(g, h);
    ExportKeepsLinks(h, rank);
  }

  /** After a build every base id that resolves is linked both ways. */
  lemma ConstructLinksBases(s: CategoryDataSet, rank: seq<nat>)
    requires Buildable(s, rank)
    ensures DirectlyLinked(Construct(s, rank).content, s.index, 0)
  {
    var swept := Swept(s, rank);
    var r := Construct(s, rank).content;
    SweptGrows(s, rank);
    ExportKeepsLinks(swept, rank);
    forall m, k | 0 <= m < |r| && 0 <= k < |r[m].definition.baseIds| && r[m].definition.baseIds[k] in s.index
      ensures LinkedPair(r, s.index[r[m].definition.baseIds[k]], m)
    {
      LinkedPairGrows(Linked(s, rank), swept, s.index[r[m].definition.baseIds[k]], m);
    }
  }

  /** After a build every root is a supercategory of every node below it in
      the links made by the linking phase, and every supercategory added
      after linking is such a root. */
  lemma ConstructPushesRoots(s: CategoryDataSet, rank: seq<nat>)
    requires Buildable(s, rank)
    ensures var linked := Linked(s, rank);
      && RootsReach(Subs(linked), rank, s.rootCategories, Construct(s, rank).content)
      && OnlyRootsAdded(linked, Subs(linked), rank, s.rootCategories, Construct(s, rank).content)
  {
    var linked := Linked(s, rank);
    RootedReach(s, rank);
    ConstructKeepsSupers(s, rank);
    ConstructShape(s, rank);
    RootsCarried(linked, Subs(linked), rank, s.rootCategories, Rooted(s, rank), Construct(s, rank).content);
  }

  /** The root facts read only supercategory lists, so they carry over to an
      arena with the same supercategory lists. */
  lemma RootsCarried(base: Arena, sb: seq<seq<nat>>, rank: seq<nat>, roots: seq<nat>, h: Arena, r: Arena)
    requires RankedDown(sb, rank) && forall k :: 0 <= k < |roots| ==> roots[k] < |sb|
    requires |r| == |h| && Supers(r) == Supers(h)
    requires RootsReach(sb, rank, roots, h) && OnlyRootsAdded(base, sb, rank, roots, h)
    ensures RootsReach(sb, rank, roots, r) && OnlyRootsAdded(base, sb, rank, roots, r)
  {
    assert forall m :: 0 <= m < |r| ==> Supers(r)[m] == Supers(h)[m];
  }

  /** Neither the leaf sweep nor the export changes a supercategory list. */
  lemma ConstructKeepsSupers(s: CategoryDataSet, rank: seq<nat>)
    requires Buildable(s, rank)
    ensures Supers(Construct(s, rank).content) == Supers(Rooted(s, rank))
  {
    ExportKeepsLinks(Swept(s, rank), rank);
  }

  /** The leaf facts read only subcategory lists, of the result and of the
      base, so they carry over to arenas with the same subcategory lists. */
  lemma LeavesCarried(base: Arena, base': Arena, sp: seq<seq<nat>>, rank: seq<nat>, leaves: seq<nat>, h: Arena, r: Arena)
    requires RankedUp(sp, rank) && forall k :: 0 <= k < |leaves| ==> leaves[k] < |sp|
    requires |base'| == |base| && Subs(base') == Subs(base)
    requires |r| == |h| && Subs(r) == Subs(h)
    requires LeavesReach(sp, rank, leaves, h) && OnlyLeavesAdded(base, sp, rank, leaves, h)
    ensures LeavesReach(sp, rank, leaves, r) && OnlyLeavesAdded(base', sp, rank, leaves, r)
  {
    assert forall m :: 0 <= m < |r| ==> Subs(r)[m] == Subs(h)[m];
    assert forall m :: 0 <= m < |base| ==> Subs(base')[m] == Subs(base)[m];
  }

  /** After a build every leaf is a subcategory of every node above it in
      the final links, and every subcategory added after linking is such a
      leaf. */
  lemma ConstructPullsLeaves(s: CategoryDataSet, rank: seq<nat>)
    requires Buildable(s, rank)
    ensures var r := Construct(s, rank);
      && Valid(r.content, rank)
      && (forall k :: 0 <= k < |r.leafCategory| ==> r.leafCategory[k] < |r.content|)
      && LeavesReach(Supers(r.content), rank, r.leafCategory, r.content)
      && OnlyLeavesAdded(Linked(s, rank), Supers(r.content), rank, r.leafCategory, r.content)
  {
    var swept := Swept(s, rank);
    var r := Construct(s, rank);
    SweptReach(s, rank);
    ConstructShape(s, rank);
    ConstructKeepsSupers(s, rank);
    ExportKeepsLinks(swept, rank);
    assert r.content == Export(swept) && r.leafCategory == LeavesFound(s, rank);
    LeavesCarried(Rooted(s, rank), Linked(s, rank), Supers(r.content), rank, r.leafCategory, swept, r.content);
  }

  /** `Initialize()` (lines 162-223): builds an uninitialised set and
      reports `true`; an initialised set is left alone and `false` is
      reported. */
  function InitializeContent(s: CategoryDataSet, rank: seq<nat>): (result: (CategoryDataSet, bool))
    requires !s.isInitialized ==> Buildable(s, rank)
    ensures result.1 <==> !s.isInitialized
    ensures result.0.isInitialized
    ensures s.isInitialized ==> result.0 == s
    ensures result.0.index == s.index && result.0.rootCategories == s.rootCategories
    ensures |result.0.content| == |s.content|
    ensures Definitions(result.0.content) == Definitions(s.content)
  {
    if s.isInitialized then (s, false)
    else
      ConstructShape(s, rank);
      var r := Construct(s, rank);
      (r, true)
  }

  /** Building twice is building once: the second call changes nothing. */
  lemma InitializeContentIdempotent(s: CategoryDataSet, rank: seq<nat>)
    requires !s.isInitialized ==> Buildable(s, rank)
    ensures var once := InitializeContent(s, rank).0;
      InitializeContent(once, rank) == (once, false)
  {
  }

  /** Nodes fresh from materialisation carry no links, so any rank of the
      right length orders them. */
  lemma MaterializeBuildable(defs: seq<CategoryDefinition>, rank: seq<nat>)
    requires Acyclic(defs, rank)
    ensures Buildable(Materialize(defs), rank) && Definitions(Materialize(defs).content) == defs
  {
    var s := Materialize(defs);
    assert Definitions(s.content) == defs;
    UnlinkedValid(s.content, rank);
    MaterializeRoots(defs);
  }

  /** An arena without links is valid under any rank of its size. */
  lemma UnlinkedValid(g: Arena, rank: seq<nat>)
    requires |rank| == |g|
    requires forall n :: 0 <= n < |g| ==> g[n].subcategories == [] && g[n].supercategories == []
    ensures Valid(g, rank)
  {
    assert RankedUp(Supers(g), rank);
    assert RankedDown(Subs(g), rank);
  }

  /** `Initialize(List<CategoryDefinition>)` (lines 133-160). A data set is
      initialised by its constructor, so the only uninitialised state this
      ever meets is the freshly constructed one. */
  function Initialize(s: CategoryDataSet, defs: seq<CategoryDefinition>, rank: seq<nat>): (result: (CategoryDataSet, bool))
    requires !s.isInitialized ==> s == Fresh && Acyclic(defs, rank)
    ensures result.1 <==> !s.isInitialized
    ensures result.0.isInitialized
    ensures s.isInitialized ==> result.0 == s
    ensures !s.isInitialized ==> Definitions(result.0.content) == defs
  {
    if s.isInitialized then (s, false)
    else
      MaterializeBuildable(defs, rank);
      (InitializeContent(Materialize(defs), rank).0, true)
  }

  /** `GetDescriptors` (lines 225-235): the descriptors of the nodes, in
      node order. */
  method GetDescriptors(s: CategoryDataSet) returns (result: seq<Descriptor>)
    ensures |result| == |s.content|
    ensures forall k :: 0 <= k < |s.content| ==> result[k] == s.content[k].descriptor
  {
    result := [];
    var i := 0;
    while i < |s.content|
      invariant 0 <= i <= |s.content| && |result| == i
      invariant forall k :: 0 <= k < i ==> result[k] == s.content[k].descriptor
    {
      result := result + [s.content[i].descriptor];
      i := i + 1;
    }
  }

  /** A build from a definition list: the id map resolves each id to its
      last definition, the roots are the definitions without base ids, every
      base id that resolves is linked both ways, the links obey the rank, and
      every leaf is a subcategory of every node above it. */
  lemma InitializeLinks(defs: seq<CategoryDefinition>, rank: seq<nat>)
    requires Acyclic(defs, rank)
    ensures var r := Initialize(Fresh, defs, rank).0;
      && IndexedByLast(defs, r.index)
      && Increasing(r.rootCategories)
      && (forall k: nat :: k in r.rootCategories <==> k < |defs| && defs[k].baseIds == [])
      && DirectlyLinked(r.content, r.index, 0)
      && Valid(r.content, rank)
      && (forall k :: 0 <= k < |r.leafCategory| ==> r.leafCategory[k] < |r.content|)
      && LeavesReach(Supers(r.content), rank, r.leafCategory, r.content)
  {
    var m := Materialize(defs);
    MaterializeBuildable(defs, rank);
    MaterializeIndex(defs);
    MaterializeRoots(defs);
    ConstructShape(m, rank);
    ConstructLinksBases(m, rank);
    ConstructPullsLeaves(m, rank);
    assert Initialize(Fresh, defs, rank).0 == Construct(m, rank);
  }

  /** Every descriptor holds exactly its node's id and the ids of the node's
      links, in list order. */
  ghost predicate SelfDescribed(g: Arena) {
    && InRange(g)
    && forall k :: 0 <= k < |g| ==>
         g[k].descriptor == Descriptor(g[k].id(), IdsOf(g, g[k].subcategories), IdsOf(g, g[k].supercategories))
  }

  /** Exporting nodes whose descriptors are still empty describes them
      exactly. */
  lemma ExportDescribes(g: Arena)
    requires InRange(g)
    requires forall k :: 0 <= k < |g| ==> g[k].descriptor == EmptyDescriptor
    ensures SelfDescribed(Export(g))
  {
    var r := Export(g);
    forall k | 0 <= k < |r|
      ensures r[k].descriptor == Descriptor(r[k].id(), IdsOf(r, r[k].subcategories), IdsOf(r, r[k].supercategories))
    {
      IdsOfSameDefinitions(r, g, g[k].subcategories);
      IdsOfSameDefinitions(r, g, g[k].supercategories);
    }
  }

  lemma GrowsKeepsEmptyDescriptors(g: Arena, r: Arena)
    requires Grows(g, r) && forall k :: 0 <= k < |g| ==> g[k].descriptor == EmptyDescriptor
    ensures forall k :: 0 <= k < |r| ==> r[k].descriptor == EmptyDescriptor
  {
  }

  /** Built from nodes with empty descriptors, the nodes end up exactly
      described. */
  lemma ConstructDescribesFresh(s: CategoryDataSet, rank: seq<nat>)
    requires Buildable(s, rank)
    requires forall k :: 0 <= k < |s.content| ==> s.content[k].descriptor == EmptyDescriptor
    ensures SelfDescribed(Construct(s, rank).content)
  {
    var swept := Swept(s, rank);
    SweptGrows(s, rank);
    GrowsKeepsEmptyDescriptors(s.content, swept);
    ExportDescribes(swept);
    assert Construct(s, rank).content == Export(swept);
  }

  /** After a build from a definition list each descriptor holds exactly its
      definition's id and the ids of the node's final links, in order. */
  lemma InitializeDescribes(defs: seq<CategoryDefinition>, rank: seq<nat>)
    requires Acyclic(defs, rank)
    ensures SelfDescribed(Initialize(Fresh, defs, rank).0.content)
  {
    var m := Materialize(defs);
    MaterializeBuildable(defs, rank);
    assert forall k :: 0 <= k < |m.content| ==> m.content[k].descriptor == EmptyDescriptor;
    ConstructDescribesFresh(m, rank);
    assert Initialize(Fresh, defs, rank).0 == Construct(m, rank);
  }

  /** After a build from a definition list, a node's descriptor names every
      base id of its definition that some definition carries: `IsCategoryOf`
      answers `true` for each such base. */
  lemma InitializeListsBases(defs: seq<CategoryDefinition>, rank: seq<nat>, k: nat, j: nat)
    requires Acyclic(defs, rank) && k < |defs| && j < |defs[k].baseIds|
    requires exists t :: 0 <= t < |defs| && defs[t].id == defs[k].baseIds[j]
    ensures defs[k].baseIds[j] in Initialize(Fresh, defs, rank).0.content[k].descriptor.supercategoryIds
  {
    var r := Initialize(Fresh, defs, rank).0;
    InitializeLinks(defs, rank);
    InitializeDescribes(defs, rank);
    LinkedBaseListed(r.content, r.index, defs, k, j);
  }

  /** In a described arena whose base ids are linked, a node's descriptor
      names each base id that the id map knows. */
  lemma LinkedBaseListed(g: Arena, index: map<string, nat>, defs: seq<CategoryDefinition>, k: nat, j: nat)
    requires DirectlyLinked(g, index, 0) && SelfDescribed(g) && IndexedByLast(defs, index) && Definitions(g) == defs
    requires k < |defs| && j < |defs[k].baseIds|
    requires exists t :: 0 <= t < |defs| && defs[t].id == defs[k].baseIds[j]
    ensures defs[k].baseIds[j] in g[k].descriptor.supercategoryIds
  {
    var b := defs[k].baseIds[j];
    assert g[k].definition == defs[k];
    assert b in index;
    var p := index[b];
    assert LinkedPair(g, p, k);
    var i :| 0 <= i < |g[k].supercategories| && g[k].supercategories[i] == p;
    assert g[k].descriptor.supercategoryIds[i] == g[p].id();
    assert g[p].definition == defs[p];
  }
}
