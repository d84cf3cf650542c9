/** What the built hierarchy may claim: every supercategory a node ends up
    with is one of its declared ancestors (a node its base ids resolve to,
    or an ancestor of one), and every subcategory a declared descendant.
    The propagation and the sweeps never invent a link; so `IsCategoryOf`
    answers `true` only for a node's own id and the ids of its declared
    ancestors. */
module CategoryAncestry {
  import opened Lists
  import opened CategoryDefinitions
  import opened CategoryNodes
  import opened CategoryHierarchy

  /** The declared ancestors of node `n`: the nodes its base ids resolve to
      through the id map, their declared ancestors, and so on. */
  ghost function Ancestors(defs: seq<CategoryDefinition>, index: map<string, nat>, rank: seq<nat>, n: nat): (r: set<nat>)
    requires BasesRanked(defs, index, rank) && n < |defs|
    ensures forall m :: m in r ==> m < |defs| && rank[m] < rank[n]
    decreases rank[n], 1, 0
  {
    AncestorsVia(defs, index, rank, defs[n].baseIds, rank[n])
  }

  /** The nodes the ids `bs` resolve to, and their declared ancestors. */
  ghost function AncestorsVia(defs: seq<CategoryDefinition>, index: map<string, nat>, rank: seq<nat>, bs: seq<string>, bound: nat): (r: set<nat>)
    requires BasesRanked(defs, index, rank)
    requires forall k :: 0 <= k < |bs| && bs[k] in index ==> rank[index[bs[k]]] < bound
    ensures forall m :: m in r ==> m < |defs| && rank[m] < bound
    decreases bound, 0, |bs|
  {
    if bs == [] then {}
    else
      var rest := AncestorsVia(defs, index, rank, bs[1..], bound);
      if bs[0] in index then {index[bs[0]]} + Ancestors(defs, index, rank, index[bs[0]]) + rest else rest
  }

  lemma {:induction false} AncestorsViaMember(defs: seq<CategoryDefinition>, index: map<string, nat>, rank: seq<nat>, bs: seq<string>, bound: nat, x: nat)
    requires BasesRanked(defs, index, rank)
    requires forall k :: 0 <= k < |bs| && bs[k] in index ==> rank[index[bs[k]]] < bound
    ensures x in AncestorsVia(defs, index, rank, bs, bound) <==>
      exists k :: 0 <= k < |bs| && bs[k] in index &&
        (x == index[bs[k]] || x in Ancestors(defs, index, rank, index[bs[k]]))
    decreases |bs|
  {
    if bs != [] {
      AncestorsViaMember(defs, index, rank, bs[1..], bound, x);
      if exists k :: 0 <= k < |bs[1..]| && bs[1..][k] in index &&
           (x == index[bs[1..][k]] || x in Ancestors(defs, index, rank, index[bs[1..][k]])) {
        var k :| 0 <= k < |bs[1..]| && bs[1..][k] in index &&
           (x == index[bs[1..][k]] || x in Ancestors(defs, index, rank, index[bs[1..][k]]));
        assert bs[k + 1] == bs[1..][k];
      }
      if exists k :: 0 <= k < |bs| && bs[k] in index &&
           (x == index[bs[k]] || x in Ancestors(defs, index, rank, index[bs[k]])) {
        var k :| 0 <= k < |bs| && bs[k] in index &&
           (x == index[bs[k]] || x in Ancestors(defs, index, rank, index[bs[k]]));
        if k > 0 {
          assert bs[1..][k - 1] == bs[k];
        }
      }
    }
  }

  /** A resolved base id names a declared ancestor, whose own ancestors are
      ancestors too. */
  lemma BaseIsAncestor(defs: seq<CategoryDefinition>, index: map<string, nat>, rank: seq<nat>, n: nat, k: nat)
    requires BasesRanked(defs, index, rank) && n < |defs| && k < |defs[n].baseIds| && defs[n].baseIds[k] in index
    ensures var p := index[defs[n].baseIds[k]];
      p in Ancestors(defs, index, rank, n) && Ancestors(defs, index, rank, p) <= Ancestors(defs, index, rank, n)
  {
    var bs := defs[n].baseIds;
    var p := index[bs[k]];
    AncestorsViaMember(defs, index, rank, bs, rank[n], p);
    forall x | x in Ancestors(defs, index, rank, p)
      ensures x in Ancestors(defs, index, rank, n)
    {
      AncestorsViaMember(defs, index, rank, bs, rank[n], x);
    }
  }

  /** An ancestor of an ancestor is an ancestor. */
  lemma {:induction false} AncestorsTransitive(defs: seq<CategoryDefinition>, index: map<string, nat>, rank: seq<nat>, n: nat, m: nat, a: nat)
    requires BasesRanked(defs, index, rank) && n < |defs|
    requires m in Ancestors(defs, index, rank, n)
    requires a in Ancestors(defs, index, rank, m)
    ensures a in Ancestors(defs, index, rank, n)
    decreases rank[n]
  {
    var bs := defs[n].baseIds;
    AncestorsViaMember(defs, index, rank, bs, rank[n], m);
    var k :| 0 <= k < |bs| && bs[k] in index &&
      (m == index[bs[k]] || m in Ancestors(defs, index, rank, index[bs[k]]));
    var p := index[bs[k]];
    BaseIsAncestor(defs, index, rank, n, k);
    if m != p {
      AncestorsTransitive(defs, index, rank, p, m, a);
    }
  }

  /** Every supercategory listed is a declared ancestor, and every
      subcategory listed a declared descendant. */
  ghost predicate Sound(g: Arena, defs: seq<CategoryDefinition>, index: map<string, nat>, rank: seq<nat>)
    requires BasesRanked(defs, index, rank)
  {
    && |g| == |defs|
    && (forall n, x :: 0 <= n < |g| && x in g[n].supercategories ==> x in Ancestors(defs, index, rank, n))
    && (forall n, x :: 0 <= n < |g| && x in g[n].subcategories && x < |g| ==> n in Ancestors(defs, index, rank, x))
  }

  /** Walking supercategory links from `n` in a sound arena reaches only `n`
      and its declared ancestors. */
  lemma {:induction false} UpwardDeclared(g: Arena, defs: seq<CategoryDefinition>, index: map<string, nat>, rank: seq<nat>, n: nat)
    requires BasesRanked(defs, index, rank) && Valid(g, rank) && Sound(g, defs, index, rank) && n < |g|
    ensures forall m :: m in Upward(Supers(g), rank, n) ==> m == n || m in Ancestors(defs, index, rank, n)
    decreases rank[n], 1, 0
  {
    var ns := g[n].supercategories;
    assert Supers(g)[n] == ns;
    UpwardAllDeclared(g, defs, index, rank, ns, rank[n], n);
  }

  lemma {:induction false} UpwardAllDeclared(g: Arena, defs: seq<CategoryDefinition>, index: map<string, nat>, rank: seq<nat>, ns: seq<nat>, bound: nat, c: nat)
    requires BasesRanked(defs, index, rank) && Valid(g, rank) && Sound(g, defs, index, rank) && c < |g|
    requires forall k :: 0 <= k < |ns| ==> ns[k] < |g| && rank[ns[k]] < bound
    requires forall k :: 0 <= k < |ns| ==> ns[k] in Ancestors(defs, index, rank, c)
    ensures forall m :: m in UpwardAll(Supers(g), rank, ns, bound) ==> m in Ancestors(defs, index, rank, c)
    decreases bound, 0, |ns|
  {
    if ns != [] {
      UpwardDeclared(g, defs, index, rank, ns[0]);
      UpwardAllDeclared(g, defs, index, rank, ns[1..], bound, c);
      forall m | m in Upward(Supers(g), rank, ns[0])
        ensures m in Ancestors(defs, index, rank, c)
      {
        if m != ns[0] {
          AncestorsTransitive(defs, index, rank, c, ns[0], m);
        }
      }
    }
  }

  /** Walking subcategory links from `n` in a sound arena reaches only `n`
      and its declared descendants. */
  lemma {:induction false} DownwardDeclared(g: Arena, defs: seq<CategoryDefinition>, index: map<string, nat>, rank: seq<nat>, n: nat)
    requires BasesRanked(defs, index, rank) && Valid(g, rank) && Sound(g, defs, index, rank) && n < |g|
    ensures forall m :: m in Downward(Subs(g), rank, n) ==> m == n || n in Ancestors(defs, index, rank, m)
    decreases Ceiling(rank) - rank[n], 1, 0
  {
    var ns := g[n].subcategories;
    assert Subs(g)[n] == ns;
    DownwardAllDeclared(g, defs, index, rank, ns, rank[n], n);
  }

  lemma {:induction false} DownwardAllDeclared(g: Arena, defs: seq<CategoryDefinition>, index: map<string, nat>, rank: seq<nat>, ns: seq<nat>, floor: nat, c: nat)
    requires BasesRanked(defs, index, rank) && Valid(g, rank) && Sound(g, defs, index, rank) && c < |g|
    requires floor < Ceiling(rank)
    requires forall k :: 0 <= k < |ns| ==> ns[k] < |g| && floor < rank[ns[k]]
    requires forall k :: 0 <= k < |ns| ==> c in Ancestors(defs, index, rank, ns[k])
    ensures forall m :: m in DownwardAll(Subs(g), rank, ns, floor) ==> c in Ancestors(defs, index, rank, m)
    decreases Ceiling(rank) - floor, 0, |ns|
  {
    if ns != [] {
      DownwardDeclared(g, defs, index, rank, ns[0]);
      DownwardAllDeclared(g, defs, index, rank, ns[1..], floor, c);
      forall m | m in Downward(Subs(g), rank, ns[0])
        ensures c in Ancestors(defs, index, rank, m)
      {
        if m != ns[0] {
          AncestorsTransitive(defs, index, rank, m, ns[0], c);
        }
      }
    }
  }

  /** Adding `d` as a subcategory of declared ancestors of `d` keeps the
      arena sound. */
  lemma SubcategoryAddedSound(g: Arena, r: Arena, targets: set<nat>, d: nat, defs: seq<CategoryDefinition>, index: map<string, nat>, rank: seq<nat>)
    requires BasesRanked(defs, index, rank) && Sound(g, defs, index, rank) && d < |g|
    requires SubcategoryAddedAt(g, r, targets, d)
    requires forall m :: m in targets && m < |g| ==> m in Ancestors(defs, index, rank, d)
    ensures Sound(r, defs, index, rank)
  {
    forall n, x | 0 <= n < |r| && x in r[n].subcategories && x < |r|
      ensures n in Ancestors(defs, index, rank, x)
    {
      if n in targets && x !in g[n].subcategories {
        assert x == d;
      }
    }
  }

  /** Adding `d` as a supercategory of declared descendants of `d` keeps the
      arena sound. */
  lemma SupercategoryAddedSound(g: Arena, r: Arena, targets: set<nat>, d: nat, defs: seq<CategoryDefinition>, index: map<string, nat>, rank: seq<nat>)
    requires BasesRanked(defs, index, rank) && Sound(g, defs, index, rank) && d < |g|
    requires SupercategoryAddedAt(g, r, targets, d)
    requires forall m :: m in targets && m < |g| ==> d in Ancestors(defs, index, rank, m)
    ensures Sound(r, defs, index, rank)
  {
    forall n, x | 0 <= n < |r| && x in r[n].supercategories
      ensures x in Ancestors(defs, index, rank, n)
    {
      if n in targets && x !in g[n].supercategories {
        assert x == d;
      }
    }
  }

  /** `n.AddSubcategory(d)` for a declared ancestor `n` of `d` keeps the
      arena sound. */
  lemma AddSubcategorySound(g: Arena, rank: seq<nat>, n: nat, d: nat, defs: seq<CategoryDefinition>, index: map<string, nat>)
    requires Valid(g, rank) && n < |g| && d < |g| && rank[n] < rank[d]
    requires BasesRanked(defs, index, rank) && Sound(g, defs, index, rank)
    requires n in Ancestors(defs, index, rank, d)
    ensures Sound(AddSubcategory(g, rank, n, d), defs, index, rank)
  {
    var targets := Upward(Supers(g), rank, n);
    UpwardDeclared(g, defs, index, rank, n);
    forall m | m in targets && m < |g|
      ensures m in Ancestors(defs, index, rank, d)
    {
      if m != n {
        AncestorsTransitive(defs, index, rank, d, n, m);
      }
    }
    SubcategoryAddedSound(g, AddSubcategory(g, rank, n, d), targets, d, defs, index, rank);
  }

  /** `n.AddSupercategory(d)` for a declared ancestor `d` of `n` keeps the
      arena sound. */
  lemma AddSupercategorySound(g: Arena, rank: seq<nat>, n: nat, d: nat, defs: seq<CategoryDefinition>, index: map<string, nat>)
    requires Valid(g, rank) && n < |g| && d < |g| && rank[d] < rank[n]
    requires BasesRanked(defs, index, rank) && Sound(g, defs, index, rank)
    requires d in Ancestors(defs, index, rank, n)
    ensures Sound(AddSupercategory(g, rank, n, d), defs, index, rank)
  {
    var targets := Downward(Subs(g), rank, n);
    DownwardDeclared(g, defs, index, rank, n);
    forall m | m in targets && m < |g|
      ensures d in Ancestors(defs, index, rank, m)
    {
      if m != n {
        AncestorsTransitive(defs, index, rank, m, n, d);
      }
    }
    SupercategoryAddedSound(g, AddSupercategory(g, rank, n, d), targets, d, defs, index, rank);
  }

  /** One linking step on a declared base keeps the arena sound. */
  lemma LinkBaseSound(g: Arena, rank: seq<nat>, index: map<string, nat>, i: nat, b: string, defs: seq<CategoryDefinition>)
    requires Valid(g, rank) && i < |g| && IndexInRange(index, |g|)
    requires b in index ==> rank[index[b]] < rank[i]
    requires BasesRanked(defs, index, rank) && Sound(g, defs, index, rank)
    requires b in index ==> index[b] in Ancestors(defs, index, rank, i)
    ensures Sound(LinkBase(g, rank, index, i, b), defs, index, rank)
  {
    if b in index {
      var j := index[b];
      AddSubcategorySound(g, rank, j, i, defs, index);
      AddSupercategorySound(AddSubcategory(g, rank, j, i), rank, i, j, defs, index);
    }
  }

  lemma {:induction false} LinkBasesSound(g: Arena, rank: seq<nat>, index: map<string, nat>, i: nat, bs: seq<string>, defs: seq<CategoryDefinition>)
    requires Valid(g, rank) && i < |g| && IndexInRange(index, |g|)
    requires forall k :: 0 <= k < |bs| && bs[k] in index ==> rank[index[bs[k]]] < rank[i]
    requires BasesRanked(defs, index, rank) && Sound(g, defs, index, rank)
    requires forall k :: 0 <= k < |bs| && bs[k] in index ==> index[bs[k]] in Ancestors(defs, index, rank, i)
    ensures Sound(LinkBases(g, rank, index, i, bs), defs, index, rank)
    decreases |bs|
  {
    if bs != [] {
      LinkBaseSound(g, rank, index, i, bs[0], defs);
      LinkBasesSound(LinkBase(g, rank, index, i, bs[0]), rank, index, i, bs[1..], defs);
    }
  }

  lemma {:induction false} LinkFromSound(g: Arena, rank: seq<nat>, index: map<string, nat>, i: nat)
    requires Valid(g, rank) && i <= |g| && BasesRanked(Definitions(g), index, rank)
    requires Sound(g, Definitions(g), index, rank)
    ensures Sound(LinkFrom(g, rank, index, i), Definitions(g), index, rank)
    decreases |g| - i
  {
    if i < |g| {
      var defs := Definitions(g);
      var bs := g[i].definition.baseIds;
      assert defs[i].baseIds == bs;
      BasesOfNodeRanked(g, index, rank, i);
      forall k | 0 <= k < |bs| && bs[k] in index
        ensures index[bs[k]] in Ancestors(defs, index, rank, i)
      {
        BaseIsAncestor(defs, index, rank, i, k);
      }
      LinkBasesSound(g, rank, index, i, bs, defs);
      var g1 := LinkBases(g, rank, index, i, bs);
      GrowsKeepsDefinitions(g, g1);
      LinkFromSound(g1, rank, index, i + 1);
    }
  }

  /** Pushing a root down to every node below it keeps the arena sound:
      each of those nodes has the root as a declared ancestor. */
  lemma RootPushSound(g: Arena, g1: Arena, rank: seq<nat>, root: nat, defs: seq<CategoryDefinition>, index: map<string, nat>)
    requires Valid(g, rank) && root < |g|
    requires BasesRanked(defs, index, rank) && Sound(g, defs, index, rank)
    requires SupercategoryAddedAt(g, g1, Below(Subs(g), rank, root), root)
    ensures Sound(g1, defs, index, rank)
  {
    RootPushable(g, rank, root);
    DownwardAllDeclared(g, defs, index, rank, g[root].subcategories, rank[root], root);
    SupercategoryAddedSound(g, g1, Below(Subs(g), rank, root), root, defs, index, rank);
  }

  lemma {:induction false} RootSweepSound(g: Arena, rank: seq<nat>, roots: seq<nat>, defs: seq<CategoryDefinition>, index: map<string, nat>)
    requires Valid(g, rank) && forall k :: 0 <= k < |roots| ==> roots[k] < |g|
    requires BasesRanked(defs, index, rank) && Sound(g, defs, index, rank)
    ensures Sound(RootSweep(g, rank, roots), defs, index, rank)
    decreases |roots|
  {
    if roots != [] {
      var root := roots[0];
      RootPushable(g, rank, root);
      var g1 := AddSupercategoryToAll(g, rank, g[root].subcategories, root, rank[root]);
      RootPushSound(g, g1, rank, root, defs, index);
      RootSweepSound(g1, rank, roots[1..], defs, index);
    }
  }

  /** Pulling a leaf up to every node above it keeps the arena sound: each
      of those nodes is a declared ancestor of the leaf. */
  lemma LeafPullSound(g: Arena, g1: Arena, rank: seq<nat>, leaf: nat, defs: seq<CategoryDefinition>, index: map<string, nat>)
    requires Valid(g, rank) && leaf < |g|
    requires BasesRanked(defs, index, rank) && Sound(g, defs, index, rank)
    requires SubcategoryAddedAt(g, g1, Above(Supers(g), rank, leaf), leaf)
    ensures Sound(g1, defs, index, rank)
  {
    LeafPullable(g, rank, leaf);
    UpwardAllDeclared(g, defs, index, rank, g[leaf].supercategories, rank[leaf], leaf);
    SubcategoryAddedSound(g, g1, Above(Supers(g), rank, leaf), leaf, defs, index, rank);
  }

  lemma {:induction false} LeafSweepSound(g: Arena, rank: seq<nat>, leaves: seq<nat>, defs: seq<CategoryDefinition>, index: map<string, nat>)
    requires Valid(g, rank) && forall k :: 0 <= k < |leaves| ==> leaves[k] < |g|
    requires BasesRanked(defs, index, rank) && Sound(g, defs, index, rank)
    ensures Sound(LeafSweep(g, rank, leaves), defs, index, rank)
    decreases |leaves|
  {
    if leaves != [] {
      var leaf := leaves[0];
      LeafPullable(g, rank, leaf);
      var g1 := AddSubcategoryToAll(g, rank, g[leaf].supercategories, leaf, rank[leaf]);
      LeafPullSound(g, g1, rank, leaf, defs, index);
      LeafSweepSound(g1, rank, leaves[1..], defs, index);
    }
  }

  /** Exporting keeps the links, and with them soundness. */
  lemma ExportSound(g: Arena, rank: seq<nat>, defs: seq<CategoryDefinition>, index: map<string, nat>)
    requires Valid(g, rank) && BasesRanked(defs, index, rank) && Sound(g, defs, index, rank)
    ensures Sound(Export(g), defs, index, rank)
  {
  }

  /** A build never links a node to anything but its declared ancestors and
      descendants. */
  lemma ConstructSound(s: CategoryDataSet, rank: seq<nat>)
    requires Buildable(s, rank) && Sound(s.content, Definitions(s.content), s.index, rank)
    ensures Sound(Construct(s, rank).content, Definitions(s.content), s.index, rank)
  {
    var defs := Definitions(s.content);
    var linked := Linked(s, rank);
    LinkFromSound(s.content, rank, s.index, 0);
    GrowsKeepsDefinitions(s.content, linked);
    RootSweepSound(linked, rank, s.rootCategories, defs, s.index);
    var rooted := Rooted(s, rank);
    LeafSweepSound(rooted, rank, LeavesFound(s, rank), defs, s.index);
    ExportSound(Swept(s, rank), rank, defs, s.index);
  }

  /** After a build from a definition list every supercategory of a node is
      one of its declared ancestors, and every subcategory one of its
      declared descendants. */
  lemma InitializeSound(defs: seq<CategoryDefinition>, rank: seq<nat>)
    requires Acyclic(defs, rank)
    ensures var r := Initialize(Fresh, defs, rank).0;
      r.index == Materialize(defs).index && Sound(r.content, defs, r.index, rank)
  {
    var m := Materialize(defs);
    MaterializeBuildable(defs, rank);
    assert forall n :: 0 <= n < |m.content| ==> m.content[n].subcategories == [] && m.content[n].supercategories == [];
    ConstructSound(m, rank);
    assert Initialize(Fresh, defs, rank).0 == Construct(m, rank);
  }

  /** `IsCategoryOf` after a build from a definition list answers `true`
      only for the node's own id or the id of one of its declared
      ancestors. */
  lemma IsCategoryOfSound(defs: seq<CategoryDefinition>, rank: seq<nat>, k: nat, category: string)
    requires Acyclic(defs, rank) && k < |defs|
    requires var data := Initialize(Fresh, defs, rank).0.content[k];
      category == data.id() || category in data.descriptor.supercategoryIds
    ensures category == defs[k].id ||
      exists a :: a in Ancestors(defs, Materialize(defs).index, rank, k) && defs[a].id == category
  {
    var r := Initialize(Fresh, defs, rank).0;
    InitializeSound(defs, rank);
    InitializeDescribes(defs, rank);
    var data := r.content[k];
    assert Definitions(r.content)[k] == defs[k];
    if category != defs[k].id {
      var ids := data.descriptor.supercategoryIds;
      assert ids == IdsOf(r.content, data.supercategories);
      var j :| 0 <= j < |ids| && ids[j] == category;
      var a := data.supercategories[j];
      assert Definitions(r.content)[a] == defs[a];
      assert a in Ancestors(defs, Materialize(defs).index, rank, k) && defs[a].id == category;
    }
  }
}
