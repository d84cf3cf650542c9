/** A worked build showing that the links `Initialize()` produces are not
    transitively closed.

    Four definitions, in this order: `r` (a root), `a` based on `r`, `b`
    based on `a` and `s` based on `b`. Linking `s` to its base `b` calls
    `b.AddSubcategory(s)`, which walks UP from `b` and puts `s` into the
    subcategory lists of `b`, `a` and `r`; then `s.AddSupercategory(b)`,
    which walks DOWN from `s` and so gives `s` only `b`. Nothing ever copies
    `b`'s own supercategories into `s`. The root sweep then adds `r` to `b`
    and `s`, and the leaf sweep over `s` adds nothing new. The built `a`
    lists `s` among its subcategories while `s` does not list `a` among its
    supercategories.

    The rank is left abstract: the result holds for every rank that
    witnesses the acyclicity of the four definitions. The literal arenas
    below are the state after each propagation call. */
module CategoryClosureExample {
  import opened Lists
  import opened CategoryDefinitions
  import opened CategoryNodes
  import opened CategoryHierarchy

  const DefR := CategoryDefinition("r", [])
  const DefA := CategoryDefinition("a", ["r"])
  const DefB := CategoryDefinition("b", ["a"])
  const DefS := CategoryDefinition("s", ["b"])

  /** The definition list `r; a: r; b: a; s: b`. */
  predicate ChainDefinitions(defs: seq<CategoryDefinition>) {
    |defs| == 4 && defs[0] == DefR && defs[1] == DefA && defs[2] == DefB && defs[3] == DefS
  }

  /** A rank that orders the chain. */
  predicate ChainRanks(rank: seq<nat>) {
    |rank| == 4 && rank[0] < rank[1] < rank[2] < rank[3]
  }

  /** What the id map of the chain knows about the three base ids. */
  ghost predicate ChainIndex(index: map<string, nat>) {
    && "r" in index && "a" in index && "b" in index
    && index["r"] == 0 && index["a"] == 1 && index["b"] == 2
    && IndexInRange(index, 4)
  }

  function Node(d: CategoryDefinition, subs: seq<nat>, supers: seq<nat>): CategoryData {
    CategoryData(d, subs, supers, EmptyDescriptor)
  }

  // The arena after each propagation call of the build.
  const Materialized := [Node(DefR, [], []), Node(DefA, [], []), Node(DefB, [], []), Node(DefS, [], [])]
  const ASubLinked := [Node(DefR, [1], []), Node(DefA, [], []), Node(DefB, [], []), Node(DefS, [], [])]
  const ALinked := [Node(DefR, [1], []), Node(DefA, [], [0]), Node(DefB, [], []), Node(DefS, [], [])]
  const BSubLinked := [Node(DefR, [1, 2], []), Node(DefA, [2], [0]), Node(DefB, [], []), Node(DefS, [], [])]
  const BLinked := [Node(DefR, [1, 2], []), Node(DefA, [2], [0]), Node(DefB, [], [1]), Node(DefS, [], [])]
  const SSubLinked := [Node(DefR, [1, 2, 3], []), Node(DefA, [2, 3], [0]), Node(DefB, [3], [1]), Node(DefS, [], [])]
  const SLinked := [Node(DefR, [1, 2, 3], []), Node(DefA, [2, 3], [0]), Node(DefB, [3], [1]), Node(DefS, [], [2])]
  const Final := [Node(DefR, [1, 2, 3], []), Node(DefA, [2, 3], [0]), Node(DefB, [3], [1, 0]), Node(DefS, [], [2, 0])]

  // ---------------------------------------------------------------------
  // One propagation call at a time, read off the characterisations.

  /** `n.AddSubcategory(d)` is a legal call on `g` and yields `h`. */
  ghost predicate SubcategoryCall(g: Arena, rank: seq<nat>, n: nat, d: nat, h: Arena) {
    && Valid(g, rank) && n < |g| && d < |g| && rank[n] < rank[d]
    && Valid(h, rank) && |h| == |g| && AddSubcategory(g, rank, n, d) == h
  }

  /** `n.AddSupercategory(d)` is a legal call on `g` and yields `h`. */
  ghost predicate SupercategoryCall(g: Arena, rank: seq<nat>, n: nat, d: nat, h: Arena) {
    && Valid(g, rank) && n < |g| && d < |g| && rank[d] < rank[n]
    && Valid(h, rank) && |h| == |g| && AddSupercategory(g, rank, n, d) == h
  }

  lemma SubcategoryStep(g: Arena, rank: seq<nat>, n: nat, d: nat, targets: set<nat>, expected: Arena)
    requires Valid(g, rank) && n < |g| && d < |g| && rank[n] < rank[d]
    requires Upward(Supers(g), rank, n) == targets
    requires SubcategoryAddedAt(g, expected, targets, d)
    ensures SubcategoryCall(g, rank, n, d, expected)
  {
    var r := AddSubcategory(g, rank, n, d);
    assert forall m :: 0 <= m < |g| ==> r[m] == expected[m];
    assert r == expected;
  }

  lemma SupercategoryStep(g: Arena, rank: seq<nat>, n: nat, d: nat, targets: set<nat>, expected: Arena)
    requires Valid(g, rank) && n < |g| && d < |g| && rank[d] < rank[n]
    requires Downward(Subs(g), rank, n) == targets
    requires SupercategoryAddedAt(g, expected, targets, d)
    ensures SupercategoryCall(g, rank, n, d, expected)
  {
    var r := AddSupercategory(g, rank, n, d);
    assert forall m :: 0 <= m < |g| ==> r[m] == expected[m];
    assert r == expected;
  }

  // Reachability from a node with at most two direct links.

  lemma UpwardNone(g: Arena, rank: seq<nat>, n: nat)
    requires Valid(g, rank) && n < |g| && g[n].supercategories == []
    ensures Upward(Supers(g), rank, n) == {n}
  {
    assert Supers(g)[n] == [];
  }

  lemma UpwardOne(g: Arena, rank: seq<nat>, n: nat, m: nat)
    requires Valid(g, rank) && n < |g| && g[n].supercategories == [m]
    ensures m < |g| && rank[m] < rank[n]
    ensures Upward(Supers(g), rank, n) == {n} + Upward(Supers(g), rank, m)
  {
    var sp := Supers(g);
    assert sp[n] == [m] && sp[n][0] == m;
    assert [m][1..] == [];
    assert UpwardAll(sp, rank, [m], rank[n]) == Upward(sp, rank, m) + UpwardAll(sp, rank, [], rank[n]);
  }

  lemma UpwardTwo(g: Arena, rank: seq<nat>, n: nat, m1: nat, m2: nat)
    requires Valid(g, rank) && n < |g| && g[n].supercategories == [m1, m2]
    ensures m1 < |g| && rank[m1] < rank[n] && m2 < |g| && rank[m2] < rank[n]
    ensures Upward(Supers(g), rank, n) == {n} + Upward(Supers(g), rank, m1) + Upward(Supers(g), rank, m2)
  {
    var sp := Supers(g);
    assert sp[n] == [m1, m2] && sp[n][0] == m1 && sp[n][1] == m2;
    assert [m1, m2][1..] == [m2] && [m2][1..] == [];
    assert UpwardAll(sp, rank, [m1, m2], rank[n]) == Upward(sp, rank, m1) + UpwardAll(sp, rank, [m2], rank[n]);
    assert UpwardAll(sp, rank, [m2], rank[n]) == Upward(sp, rank, m2) + UpwardAll(sp, rank, [], rank[n]);
  }

  lemma DownwardNone(g: Arena, rank: seq<nat>, n: nat)
    requires Valid(g, rank) && n < |g| && g[n].subcategories == []
    ensures Downward(Subs(g), rank, n) == {n}
  {
    assert Subs(g)[n] == [];
  }

  lemma DownwardOne(g: Arena, rank: seq<nat>, n: nat, m: nat)
    requires Valid(g, rank) && n < |g| && g[n].subcategories == [m]
    ensures m < |g| && rank[n] < rank[m]
    ensures Downward(Subs(g), rank, n) == {n} + Downward(Subs(g), rank, m)
  {
    var sb := Subs(g);
    assert sb[n] == [m] && sb[n][0] == m;
    assert [m][1..] == [];
    assert DownwardAll(sb, rank, [m], rank[n]) == Downward(sb, rank, m) + DownwardAll(sb, rank, [], rank[n]);
  }

  lemma DownwardTwo(g: Arena, rank: seq<nat>, n: nat, m1: nat, m2: nat)
    requires Valid(g, rank) && n < |g| && g[n].subcategories == [m1, m2]
    ensures m1 < |g| && rank[n] < rank[m1] && m2 < |g| && rank[n] < rank[m2]
    ensures Downward(Subs(g), rank, n) == {n} + Downward(Subs(g), rank, m1) + Downward(Subs(g), rank, m2)
  {
    var sb := Subs(g);
    assert sb[n] == [m1, m2] && sb[n][0] == m1 && sb[n][1] == m2;
    assert [m1, m2][1..] == [m2] && [m2][1..] == [];
    assert DownwardAll(sb, rank, [m1, m2], rank[n]) == Downward(sb, rank, m1) + DownwardAll(sb, rank, [m2], rank[n]);
    assert DownwardAll(sb, rank, [m2], rank[n]) == Downward(sb, rank, m2) + DownwardAll(sb, rank, [], rank[n]);
  }

  // What each propagation call reaches.

  lemma AboveAInALinked(rank: seq<nat>)
    requires ChainRanks(rank) && Valid(ALinked, rank)
    ensures Upward(Supers(ALinked), rank, 1) == {1, 0}
  {
    UpwardNone(ALinked, rank, 0);
    UpwardOne(ALinked, rank, 1, 0);
  }

  lemma AboveBInBLinked(rank: seq<nat>)
    requires ChainRanks(rank) && Valid(BLinked, rank)
    ensures Upward(Supers(BLinked), rank, 2) == {2, 1, 0}
  {
    UpwardNone(BLinked, rank, 0);
    UpwardOne(BLinked, rank, 1, 0);
    UpwardOne(BLinked, rank, 2, 1);
  }

  lemma BelowAInSLinked(rank: seq<nat>)
    requires ChainRanks(rank) && Valid(SLinked, rank)
    ensures Downward(Subs(SLinked), rank, 1) == {1, 2, 3}
  {
    DownwardNone(SLinked, rank, 3);
    DownwardOne(SLinked, rank, 2, 3);
    DownwardTwo(SLinked, rank, 1, 2, 3);
  }

  lemma BelowBInFinal(rank: seq<nat>)
    requires ChainRanks(rank) && Valid(Final, rank)
    ensures Downward(Subs(Final), rank, 2) == {2, 3}
  {
    DownwardNone(Final, rank, 3);
    DownwardOne(Final, rank, 2, 3);
  }

  lemma AboveBInFinal(rank: seq<nat>)
    requires ChainRanks(rank) && Valid(Final, rank)
    ensures Upward(Supers(Final), rank, 2) == {2, 1, 0}
  {
    UpwardNone(Final, rank, 0);
    UpwardOne(Final, rank, 1, 0);
    UpwardTwo(Final, rank, 2, 1, 0);
  }

  // The propagation calls of the build, one at a time.

  lemma MaterializedValid(rank: seq<nat>)
    requires ChainRanks(rank)
    ensures Valid(Materialized, rank)
  {
  }

  /** `r.AddSubcategory(a)`: only `r` gains `a`. */
  lemma LinkASubcategory(rank: seq<nat>)
    requires ChainRanks(rank)
    ensures Valid(Materialized, rank) && SubcategoryCall(Materialized, rank, 0, 1, ASubLinked)
  {
    MaterializedValid(rank);
    UpwardNone(Materialized, rank, 0);
    SubcategoryStep(Materialized, rank, 0, 1, {0}, ASubLinked);
  }

  /** `a.AddSupercategory(r)`: only `a` gains `r`. */
  lemma LinkASupercategory(rank: seq<nat>)
    requires ChainRanks(rank) && Valid(ASubLinked, rank)
    ensures SupercategoryCall(ASubLinked, rank, 1, 0, ALinked)
  {
    DownwardNone(ASubLinked, rank, 1);
    SupercategoryStep(ASubLinked, rank, 1, 0, {1}, ALinked);
  }

  /** `a.AddSubcategory(b)`: `a` and, upward, `r` gain `b`. */
  lemma LinkBSubcategory(rank: seq<nat>)
    requires ChainRanks(rank) && Valid(ALinked, rank)
    ensures SubcategoryCall(ALinked, rank, 1, 2, BSubLinked)
  {
    AboveAInALinked(rank);
    SubcategoryStep(ALinked, rank, 1, 2, {1, 0}, BSubLinked);
  }

  /** `b.AddSupercategory(a)`: `b` has no subcategories, so only `b` gains
      `a` (and not `r`). */
  lemma LinkBSupercategory(rank: seq<nat>)
    requires ChainRanks(rank) && Valid(BSubLinked, rank)
    ensures SupercategoryCall(BSubLinked, rank, 2, 1, BLinked)
  {
    DownwardNone(BSubLinked, rank, 2);
    SupercategoryStep(BSubLinked, rank, 2, 1, {2}, BLinked);
  }

  /** `b.AddSubcategory(s)`: `b`, `a` and `r` all gain `s`. */
  lemma LinkSSubcategory(rank: seq<nat>)
    requires ChainRanks(rank) && Valid(BLinked, rank)
    ensures SubcategoryCall(BLinked, rank, 2, 3, SSubLinked)
  {
    AboveBInBLinked(rank);
    SAddedAboveB();
    SubcategoryStep(BLinked, rank, 2, 3, {2, 1, 0}, SSubLinked);
  }

  lemma SAddedAboveB()
    ensures SubcategoryAddedAt(BLinked, SSubLinked, {2, 1, 0}, 3)
  {
  }

  /** `s.AddSupercategory(b)`: only `s` gains `b`, and nothing gives it `a`. */
  lemma LinkSSupercategory(rank: seq<nat>)
    requires ChainRanks(rank) && Valid(SSubLinked, rank)
    ensures SupercategoryCall(SSubLinked, rank, 3, 2, SLinked)
  {
    DownwardNone(SSubLinked, rank, 3);
    SupercategoryStep(SSubLinked, rank, 3, 2, {3}, SLinked);
  }

  /** Root sweep, `a.AddSupercategory(r)`: `b` and `s` gain `r`. */
  lemma RootReachesDescendants(rank: seq<nat>)
    requires ChainRanks(rank) && Valid(SLinked, rank)
    ensures SupercategoryCall(SLinked, rank, 1, 0, Final)
  {
    BelowAInSLinked(rank);
    RAddedBelowA();
    SupercategoryStep(SLinked, rank, 1, 0, {1, 2, 3}, Final);
  }

  lemma RAddedBelowA()
    ensures SupercategoryAddedAt(SLinked, Final, {1, 2, 3}, 0)
  {
  }

  /** Root sweep, `b.AddSupercategory(r)`: `r` is already listed below `b`. */
  lemma RootListedBelowB(rank: seq<nat>)
    requires ChainRanks(rank) && Valid(Final, rank)
    ensures SupercategoryCall(Final, rank, 2, 0, Final)
  {
    BelowBInFinal(rank);
    SupercategoryStep(Final, rank, 2, 0, {2, 3}, Final);
  }

  /** Root sweep, `s.AddSupercategory(r)`: `r` is already listed at `s`. */
  lemma RootListedAtS(rank: seq<nat>)
    requires ChainRanks(rank) && Valid(Final, rank)
    ensures SupercategoryCall(Final, rank, 3, 0, Final)
  {
    DownwardNone(Final, rank, 3);
    SupercategoryStep(Final, rank, 3, 0, {3}, Final);
  }

  /** Leaf sweep, `b.AddSubcategory(s)`: `s` is already listed above `b`. */
  lemma LeafListedAboveB(rank: seq<nat>)
    requires ChainRanks(rank) && Valid(Final, rank)
    ensures SubcategoryCall(Final, rank, 2, 3, Final)
  {
    AboveBInFinal(rank);
    SubcategoryStep(Final, rank, 2, 3, {2, 1, 0}, Final);
  }

  /** Leaf sweep, `r.AddSubcategory(s)`: `s` is already listed at `r`. */
  lemma LeafListedAtR(rank: seq<nat>)
    requires ChainRanks(rank) && Valid(Final, rank)
    ensures SubcategoryCall(Final, rank, 0, 3, Final)
  {
    UpwardNone(Final, rank, 0);
    SubcategoryStep(Final, rank, 0, 3, {0}, Final);
  }

  // ---------------------------------------------------------------------
  // Phase 1: materialisation.

  lemma OnlyElement(r: seq<nat>, x: nat)
    requires Increasing(r) && forall k: nat :: k in r <==> k == x
    ensures r == [x]
  {
    assert x in r;
    assert r[0] in r && r[|r| - 1] in r;
  }

  /** An id carried by exactly one definition maps to it. */
  lemma IndexedAt(defs: seq<CategoryDefinition>, index: map<string, nat>, id: string, k: nat)
    requires IndexedByLast(defs, index) && k < |defs| && defs[k].id == id
    requires forall j :: 0 <= j < |defs| && j != k ==> defs[j].id != id
    ensures id in index && index[id] == k
  {
  }

  lemma ChainIndexed(defs: seq<CategoryDefinition>, index: map<string, nat>)
    requires ChainDefinitions(defs) && IndexedByLast(defs, index)
    ensures ChainIndex(index)
  {
    assert defs[0].id == "r" && defs[1].id == "a" && defs[2].id == "b" && defs[3].id == "s";
    IndexedAt(defs, index, "r", 0);
    IndexedAt(defs, index, "a", 1);
    IndexedAt(defs, index, "b", 2);
  }

  lemma MaterializeChain(defs: seq<CategoryDefinition>)
    requires ChainDefinitions(defs)
    ensures var m := Materialize(defs);
      m.content == Materialized && ChainIndex(m.index) && m.rootCategories == [0] && m.leafCategory == []
  {
    MaterializedContent(defs);
    MaterializedIndex(defs);
    MaterializedRoots(defs);
  }

  lemma MaterializedContent(defs: seq<CategoryDefinition>)
    requires ChainDefinitions(defs)
    ensures Materialize(defs).content == Materialized
  {
    var m := Materialize(defs);
    assert forall k :: 0 <= k < 4 ==> m.content[k] == Materialized[k];
  }

  lemma MaterializedIndex(defs: seq<CategoryDefinition>)
    requires ChainDefinitions(defs)
    ensures ChainIndex(Materialize(defs).index)
  {
    MaterializeIndex(defs);
    ChainIndexed(defs, Materialize(defs).index);
  }

  lemma MaterializedRoots(defs: seq<CategoryDefinition>)
    requires ChainDefinitions(defs)
    ensures Materialize(defs).rootCategories == [0]
  {
    MaterializeRoots(defs);
    OnlyElement(Materialize(defs).rootCategories, 0);
  }

  /** Any rank that makes the chain acyclic orders it. */
  lemma AcyclicChainRanks(defs: seq<CategoryDefinition>, rank: seq<nat>)
    requires ChainDefinitions(defs) && Acyclic(defs, rank)
    ensures ChainRanks(rank)
  {
    MaterializeChain(defs);
    assert defs[1].baseIds[0] == "r" && defs[2].baseIds[0] == "a" && defs[3].baseIds[0] == "b";
  }

  // ---------------------------------------------------------------------
  // Phase 2: linking, one node with one base id at a time.

  lemma ChainBasesRanked(g: Arena, rank: seq<nat>, index: map<string, nat>)
    requires ChainRanks(rank) && ChainIndex(index) && |g| == 4
    requires g[0].definition == DefR && g[1].definition == DefA && g[2].definition == DefB && g[3].definition == DefS
    ensures BasesRanked(Definitions(g), index, rank) && IndexInRange(index, |g|)
  {
    assert Definitions(g) == [DefR, DefA, DefB, DefS];
  }

  lemma LinkSingle(g: Arena, rank: seq<nat>, index: map<string, nat>, i: nat, b: string, j: nat)
    requires Valid(g, rank) && i < |g| && IndexInRange(index, |g|) && b in index && index[b] == j && rank[j] < rank[i]
    ensures LinkBases(g, rank, index, i, [b]) == AddSupercategory(AddSubcategory(g, rank, j, i), rank, i, j)
  {
    assert [b][1..] == [];
    assert LinkBases(g, rank, index, i, [b]) == LinkBase(g, rank, index, i, b);
  }

  /** Linking node `i` of `g`, whose only base id resolves, yields `h`. */
  ghost predicate LinksTo(g: Arena, rank: seq<nat>, index: map<string, nat>, i: nat, h: Arena) {
    && Valid(g, rank) && i < |g| && BasesRanked(Definitions(g), index, rank)
    && |g[i].definition.baseIds| == 1
    && g[i].definition.baseIds[0] in index
    && var j := index[g[i].definition.baseIds[0]];
       j < |g| && rank[j] < rank[i] && AddSupercategory(AddSubcategory(g, rank, j, i), rank, i, j) == h
  }

  lemma LinkFromStep(g: Arena, rank: seq<nat>, index: map<string, nat>, i: nat, h: Arena)
    requires LinksTo(g, rank, index, i, h)
    ensures Valid(h, rank) && BasesRanked(Definitions(h), index, rank) && |h| == |g|
    ensures LinkFrom(g, rank, index, i) == LinkFrom(h, rank, index, i + 1)
  {
    var b := g[i].definition.baseIds[0];
    assert g[i].definition.baseIds == [b];
    assert Definitions(g)[i] == g[i].definition;
    LinkSingle(g, rank, index, i, b, index[b]);
    GrowsKeepsDefinitions(g, h);
  }

  lemma LinkFromEnd(g: Arena, rank: seq<nat>, index: map<string, nat>)
    requires Valid(g, rank) && BasesRanked(Definitions(g), index, rank)
    ensures LinkFrom(g, rank, index, |g|) == g
  {
  }

  lemma LinkAllSteps(g0: Arena, g1: Arena, g2: Arena, g3: Arena, rank: seq<nat>, index: map<string, nat>)
    requires Valid(g0, rank) && |g0| == 4 && BasesRanked(Definitions(g0), index, rank) && g0[0].definition.baseIds == []
    requires LinksTo(g0, rank, index, 1, g1) && LinksTo(g1, rank, index, 2, g2) && LinksTo(g2, rank, index, 3, g3)
    ensures LinkAll(g0, rank, index) == g3
  {
    assert LinkFrom(g0, rank, index, 0) == LinkFrom(g0, rank, index, 1);
    LinkFromStep(g0, rank, index, 1, g1);
    LinkFromStep(g1, rank, index, 2, g2);
    LinkFromStep(g2, rank, index, 3, g3);
    LinkFromEnd(g3, rank, index);
  }

  lemma LinksA(rank: seq<nat>, index: map<string, nat>)
    requires ChainRanks(rank) && ChainIndex(index)
    ensures Valid(Materialized, rank) && Valid(ALinked, rank) && LinksTo(Materialized, rank, index, 1, ALinked)
  {
    LinkASubcategory(rank);
    LinkASupercategory(rank);
    ChainBasesRanked(Materialized, rank, index);
  }

  lemma LinksB(rank: seq<nat>, index: map<string, nat>)
    requires ChainRanks(rank) && ChainIndex(index) && Valid(ALinked, rank)
    ensures Valid(BLinked, rank) && LinksTo(ALinked, rank, index, 2, BLinked)
  {
    LinkBSubcategory(rank);
    LinkBSupercategory(rank);
    ChainBasesRanked(ALinked, rank, index);
  }

  lemma LinksS(rank: seq<nat>, index: map<string, nat>)
    requires ChainRanks(rank) && ChainIndex(index) && Valid(BLinked, rank)
    ensures Valid(SLinked, rank) && LinksTo(BLinked, rank, index, 3, SLinked)
  {
    LinkSSubcategory(rank);
    LinkSSupercategory(rank);
    ChainBasesRanked(BLinked, rank, index);
  }

  lemma LinkAllChain(rank: seq<nat>, index: map<string, nat>)
    requires ChainRanks(rank) && ChainIndex(index)
    ensures Valid(Materialized, rank) && BasesRanked(Definitions(Materialized), index, rank)
    ensures LinkAll(Materialized, rank, index) == SLinked
  {
    LinksA(rank, index);
    LinksB(rank, index);
    LinksS(rank, index);
    ChainBasesRanked(Materialized, rank, index);
    LinkAllSteps(Materialized, ALinked, BLinked, SLinked, rank, index);
  }

  /** Phase 3: `s` is the only leaf. */
  lemma LeavesChain()
    ensures Leaves(SLinked) == [3]
  {
    OnlyElement(Leaves(SLinked), 3);
  }

  // ---------------------------------------------------------------------
  // Phase 4: the root sweep over `r`'s subcategories `a, b, s`.

  /** One `sub.AddSupercategory(root)` of the root's `foreach`. */
  lemma ChainPushRootStep(g: Arena, rank: seq<nat>, root: nat, subs: seq<nat>, h: Arena, rest: seq<nat>)
    requires Valid(g, rank) && root < |g| && subs != []
    requires forall k :: 0 <= k < |subs| ==> subs[k] < |g| && rank[root] < rank[subs[k]]
    requires SupercategoryCall(g, rank, subs[0], root, h)
    requires rest == subs[1..] && forall k :: 0 <= k < |rest| ==> rest[k] < |h| && rank[root] < rank[rest[k]]
    ensures AddSupercategoryToAll(g, rank, subs, root, rank[root]) == AddSupercategoryToAll(h, rank, rest, root, rank[root])
  {
  }

  lemma ChainPushRootNone(g: Arena, rank: seq<nat>, root: nat)
    requires Valid(g, rank) && root < |g|
    ensures AddSupercategoryToAll(g, rank, [], root, rank[root]) == g
  {
  }

  /** The subcategories of a node all rank above it. */
  lemma SubsRankAbove(g: Arena, rank: seq<nat>, root: nat)
    requires Valid(g, rank) && root < |g|
    ensures forall k :: 0 <= k < |g[root].subcategories| ==>
      g[root].subcategories[k] < |g| && rank[root] < rank[g[root].subcategories[k]]
  {
    assert forall k :: 0 <= k < |g[root].subcategories| ==> Subs(g)[root][k] == g[root].subcategories[k];
  }

  lemma RootSweepNone(g: Arena, rank: seq<nat>)
    requires Valid(g, rank)
    ensures RootSweep(g, rank, []) == g
  {
  }

  lemma RootSweepOne(g: Arena, rank: seq<nat>, root: nat)
    requires Valid(g, rank) && root < |g|
    ensures forall k :: 0 <= k < |g[root].subcategories| ==>
      g[root].subcategories[k] < |g| && rank[root] < rank[g[root].subcategories[k]]
    ensures RootSweep(g, rank, [root]) == AddSupercategoryToAll(g, rank, g[root].subcategories, root, rank[root])
  {
    SubsRankAbove(g, rank, root);
    var g1 := AddSupercategoryToAll(g, rank, g[root].subcategories, root, rank[root]);
    assert [root][1..] == [];
    assert RootSweep(g, rank, [root]) == RootSweep(g1, rank, []);
    RootSweepNone(g1, rank);
  }

  /** Pushing `r` to `a`, then to `b`, then to `s`. */
  lemma ChainPushRootToA(rank: seq<nat>)
    requires ChainRanks(rank) && Valid(SLinked, rank)
    ensures Valid(Final, rank) && AddSupercategoryToAll(SLinked, rank, [1, 2, 3], 0, rank[0]) == AddSupercategoryToAll(Final, rank, [2, 3], 0, rank[0])
  {
    RootReachesDescendants(rank);
    ChainPushRootStep(SLinked, rank, 0, [1, 2, 3], Final, [2, 3]);
    assert [1, 2, 3][1..] == [2, 3];
  }

  lemma ChainPushRootToB(rank: seq<nat>)
    requires ChainRanks(rank) && Valid(Final, rank)
    ensures AddSupercategoryToAll(Final, rank, [2, 3], 0, rank[0]) == AddSupercategoryToAll(Final, rank, [3], 0, rank[0])
  {
    RootListedBelowB(rank);
    ChainPushRootStep(Final, rank, 0, [2, 3], Final, [3]);
    assert [2, 3][1..] == [3];
  }

  lemma ChainPushRootToS(rank: seq<nat>)
    requires ChainRanks(rank) && Valid(Final, rank)
    ensures AddSupercategoryToAll(Final, rank, [3], 0, rank[0]) == Final
  {
    RootListedAtS(rank);
    ChainPushRootStep(Final, rank, 0, [3], Final, []);
    assert [3][1..] == [];
    ChainPushRootNone(Final, rank, 0);
  }

  lemma RootSweepChain(rank: seq<nat>)
    requires ChainRanks(rank) && Valid(SLinked, rank)
    ensures RootSweep(SLinked, rank, [0]) == Final
  {
    RootSweepOne(SLinked, rank, 0);
    assert SLinked[0].subcategories == [1, 2, 3];
    ChainPushRootToA(rank);
    ChainPushRootToB(rank);
    ChainPushRootToS(rank);
  }

  // ---------------------------------------------------------------------
  // Phase 5: the leaf sweep over `s`'s supercategories `b, r`.

  /** One `super.AddSubcategory(leaf)` of the leaf's `foreach`. */
  lemma ChainPullLeafStep(g: Arena, rank: seq<nat>, leaf: nat, supers: seq<nat>, h: Arena, rest: seq<nat>)
    requires Valid(g, rank) && leaf < |g| && supers != []
    requires forall k :: 0 <= k < |supers| ==> supers[k] < |g| && rank[supers[k]] < rank[leaf]
    requires SubcategoryCall(g, rank, supers[0], leaf, h)
    requires rest == supers[1..] && forall k :: 0 <= k < |rest| ==> rest[k] < |h| && rank[rest[k]] < rank[leaf]
    ensures AddSubcategoryToAll(g, rank, supers, leaf, rank[leaf]) == AddSubcategoryToAll(h, rank, rest, leaf, rank[leaf])
  {
  }

  lemma ChainPullLeafNone(g: Arena, rank: seq<nat>, leaf: nat)
    requires Valid(g, rank) && leaf < |g|
    ensures AddSubcategoryToAll(g, rank, [], leaf, rank[leaf]) == g
  {
  }

  /** The supercategories of a node all rank below it. */
  lemma SupersRankBelow(g: Arena, rank: seq<nat>, leaf: nat)
    requires Valid(g, rank) && leaf < |g|
    ensures forall k :: 0 <= k < |g[leaf].supercategories| ==>
      g[leaf].supercategories[k] < |g| && rank[g[leaf].supercategories[k]] < rank[leaf]
  {
    assert forall k :: 0 <= k < |g[leaf].supercategories| ==> Supers(g)[leaf][k] == g[leaf].supercategories[k];
  }

  lemma LeafSweepNone(g: Arena, rank: seq<nat>)
    requires Valid(g, rank)
    ensures LeafSweep(g, rank, []) == g
  {
  }

  lemma LeafSweepOne(g: Arena, rank: seq<nat>, leaf: nat)
    requires Valid(g, rank) && leaf < |g|
    ensures forall k :: 0 <= k < |g[leaf].supercategories| ==>
      g[leaf].supercategories[k] < |g| && rank[g[leaf].supercategories[k]] < rank[leaf]
    ensures LeafSweep(g, rank, [leaf]) == AddSubcategoryToAll(g, rank, g[leaf].supercategories, leaf, rank[leaf])
  {
    SupersRankBelow(g, rank, leaf);
    var g1 := AddSubcategoryToAll(g, rank, g[leaf].supercategories, leaf, rank[leaf]);
    assert [leaf][1..] == [];
    assert LeafSweep(g, rank, [leaf]) == LeafSweep(g1, rank, []);
    LeafSweepNone(g1, rank);
  }

  /** Pulling `s` under `b`, then under `r`. */
  lemma ChainPullLeafToB(rank: seq<nat>)
    requires ChainRanks(rank) && Valid(Final, rank)
    ensures AddSubcategoryToAll(Final, rank, [2, 0], 3, rank[3]) == AddSubcategoryToAll(Final, rank, [0], 3, rank[3])
  {
    LeafListedAboveB(rank);
    ChainPullLeafStep(Final, rank, 3, [2, 0], Final, [0]);
    assert [2, 0][1..] == [0];
  }

  lemma ChainPullLeafToR(rank: seq<nat>)
    requires ChainRanks(rank) && Valid(Final, rank)
    ensures AddSubcategoryToAll(Final, rank, [0], 3, rank[3]) == Final
  {
    LeafListedAtR(rank);
    ChainPullLeafStep(Final, rank, 3, [0], Final, []);
    assert [0][1..] == [];
    ChainPullLeafNone(Final, rank, 3);
  }

  lemma LeafSweepChain(rank: seq<nat>)
    requires ChainRanks(rank) && Valid(Final, rank)
    ensures LeafSweep(Final, rank, [3]) == Final
  {
    LeafSweepOne(Final, rank, 3);
    assert Final[3].supercategories == [2, 0];
    ChainPullLeafToB(rank);
    ChainPullLeafToR(rank);
  }

  // ---------------------------------------------------------------------
  // The phases of the build, on any data set materialised from the chain.

  lemma LinkedChain(m: CategoryDataSet, rank: seq<nat>)
    requires ChainRanks(rank) && Buildable(m, rank)
    requires m.content == Materialized && ChainIndex(m.index)
    ensures Linked(m, rank) == SLinked
  {
    LinkAllChain(rank, m.index);
  }

  lemma RootedChain(m: CategoryDataSet, rank: seq<nat>)
    requires ChainRanks(rank) && Buildable(m, rank)
    requires m.rootCategories == [0] && Linked(m, rank) == SLinked
    ensures Rooted(m, rank) == Final
  {
    RootSweepChain(rank);
  }

  lemma LeavesFoundChain(m: CategoryDataSet, rank: seq<nat>)
    requires ChainRanks(rank) && Buildable(m, rank)
    requires m.leafCategory == [] && Linked(m, rank) == SLinked
    ensures LeavesFound(m, rank) == [3]
  {
    LeavesChain();
  }

  lemma SweptLeavesChain(m: CategoryDataSet, rank: seq<nat>)
    requires ChainRanks(rank) && Buildable(m, rank)
    requires LeavesFound(m, rank) == [3] && Rooted(m, rank) == Final
    ensures Swept(m, rank) == Final
  {
    LeafSweepChain(rank);
  }

  lemma SweptChain(m: CategoryDataSet, rank: seq<nat>)
    requires ChainRanks(rank) && Buildable(m, rank)
    requires m.content == Materialized && ChainIndex(m.index) && m.rootCategories == [0] && m.leafCategory == []
    ensures Swept(m, rank) == Final
  {
    LinkedChain(m, rank);
    RootedChain(m, rank);
    LeavesFoundChain(m, rank);
    SweptLeavesChain(m, rank);
  }

  lemma InitializeChain(defs: seq<CategoryDefinition>, rank: seq<nat>)
    requires ChainDefinitions(defs) && Acyclic(defs, rank)
    ensures Buildable(Materialize(defs), rank)
    ensures Initialize(Fresh, defs, rank).0.content == Export(Swept(Materialize(defs), rank))
    ensures Swept(Materialize(defs), rank) == Final
  {
    AcyclicChainRanks(defs, rank);
    MaterializeChain(defs);
    InitializeIsConstruct(defs, rank);
    SweptChain(Materialize(defs), rank);
  }

  lemma InitializeIsConstruct(defs: seq<CategoryDefinition>, rank: seq<nat>)
    requires Acyclic(defs, rank)
    ensures Buildable(Materialize(defs), rank)
    ensures Initialize(Fresh, defs, rank).0 == Construct(Materialize(defs), rank)
  {
    MaterializeBuildable(defs, rank);
  }

  /** Phase 6 on the swept chain: the links are kept, the ids read off. */
  lemma FinalInRange()
    ensures InRange(Final)
  {
  }

  lemma ChainExportKeepsLinks()
    ensures InRange(Final) && |Export(Final)| == 4
    ensures Export(Final)[1].subcategories == [2, 3] && Export(Final)[2].supercategories == [1, 0]
    ensures Export(Final)[3].supercategories == [2, 0] && Export(Final)[3].id() == "s"
  {
    FinalInRange();
  }

  lemma ExportDescribesA()
    ensures InRange(Final) && Export(Final)[1].descriptor.subcategoryIds == ["b", "s"]
  {
    assert IdsOf(Final, [2, 3]) == ["b", "s"];
  }

  lemma ExportDescribesS()
    ensures InRange(Final) && Export(Final)[3].descriptor.supercategoryIds == ["b", "r"]
  {
    assert IdsOf(Final, [2, 0]) == ["b", "r"];
  }

  /** `c` is the export of the swept chain. */
  ghost predicate FinalExport(c: Arena) {
    InRange(Final) && c == Export(Final)
  }

  lemma InitializeExportsFinal(defs: seq<CategoryDefinition>, rank: seq<nat>)
    requires ChainDefinitions(defs) && Acyclic(defs, rank)
    ensures FinalExport(Initialize(Fresh, defs, rank).0.content)
  {
    InitializeChain(defs, rank);
    ChainExportKeepsLinks();
  }

  lemma FinalExportGap(c: Arena)
    requires FinalExport(c)
    ensures |c| == 4
    ensures c[1].subcategories == [2, 3] && c[2].supercategories == [1, 0] && c[3].supercategories == [2, 0]
    ensures c[1].descriptor.subcategoryIds == ["b", "s"]
    ensures c[3].descriptor.supercategoryIds == ["b", "r"]
    ensures c[3].id() == "s" && "a" !in c[3].descriptor.supercategoryIds
  {
    ChainExportKeepsLinks();
    ExportDescribesA();
    ExportDescribesS();
  }

  /** Building `r; a: r; b: a; s: b` leaves the links not transitively
      closed: `s` is a subcategory of `b`, `b` of `a`, and `a` lists `s`
      among its subcategories, yet `s` lists only `b` and `r` as its
      supercategories. So `IsCategoryOf(s, "a")` answers false although
      `s` descends from `a`. */
  lemma ClosureNotTransitive(defs: seq<CategoryDefinition>, rank: seq<nat>)
    requires ChainDefinitions(defs) && Acyclic(defs, rank)
    ensures var c := Initialize(Fresh, defs, rank).0.content;
      && |c| == 4
      && c[1].subcategories == [2, 3] && c[2].supercategories == [1, 0] && c[3].supercategories == [2, 0]
      && c[1].descriptor.subcategoryIds == ["b", "s"]
      && c[3].descriptor.supercategoryIds == ["b", "r"]
      && c[3].id() == "s" && "a" !in c[3].descriptor.supercategoryIds
  {
    InitializeExportsFinal(defs, rank);
    FinalExportGap(Initialize(Fresh, defs, rank).0.content);
  }
}
