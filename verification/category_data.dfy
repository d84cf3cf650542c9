/** `CategoryData`: one node of the category hierarchy, and the two
    propagating link operations `AddSubcategory` and `AddSupercategory`.

    Nodes live in an arena (a sequence); a node refers to another by its
    position, which plays the part of the C# object reference. Two nodes
    with the same id are still two nodes. */
module CategoryNodes {
  import opened Lists
  import opened CategoryDefinitions

  /** The flat export of a node: its id and the ids of its two lists. */
  datatype Descriptor = Descriptor(id: string, subcategoryIds: seq<string>, supercategoryIds: seq<string>)

  /** A descriptor as `new Descriptor()` creates it (the model writes the
      null id as the empty string; nothing reads it before export). */
  const EmptyDescriptor := Descriptor("", [], [])

  /** A node: its definition, its subcategory and supercategory lists (arena
      positions, in insertion order) and its descriptor. */
  datatype CategoryData = CategoryData(
    definition: CategoryDefinition,
    subcategories: seq<nat>,
    supercategories: seq<nat>,
    descriptor: Descriptor)
  {
    function id(): string {
      definition.id
    }
  }

  /** What `new CategoryData(definition)` creates. */
  function NewNode(definition: CategoryDefinition): CategoryData {
    CategoryData(definition, [], [], EmptyDescriptor)
  }

  type Arena = seq<CategoryData>

  ghost function Subs(g: Arena): (r: seq<seq<nat>>)
    ensures |r| == |g| && forall n :: 0 <= n < |g| ==> r[n] == g[n].subcategories
  {
    seq(|g|, n requires 0 <= n < |g| => g[n].subcategories)
  }

  ghost function Supers(g: Arena): (r: seq<seq<nat>>)
    ensures |r| == |g| && forall n :: 0 <= n < |g| ==> r[n] == g[n].supercategories
  {
    seq(|g|, n requires 0 <= n < |g| => g[n].supercategories)
  }

  ghost function Definitions(g: Arena): (r: seq<CategoryDefinition>)
    ensures |r| == |g| && forall n :: 0 <= n < |g| ==> r[n] == g[n].definition
  {
    seq(|g|, n requires 0 <= n < |g| => g[n].definition)
  }

  /** Every listed supercategory is a node ranked strictly lower. */
  ghost predicate RankedUp(sp: seq<seq<nat>>, rank: seq<nat>) {
    && |rank| == |sp|
    && forall n, k :: 0 <= n < |sp| && 0 <= k < |sp[n]| ==> sp[n][k] < |sp| && rank[sp[n][k]] < rank[n]
  }

  /** Every listed subcategory is a node ranked strictly higher. */
  ghost predicate RankedDown(sb: seq<seq<nat>>, rank: seq<nat>) {
    && |rank| == |sb|
    && forall n, k :: 0 <= n < |sb| && 0 <= k < |sb[n]| ==> sb[n][k] < |sb| && rank[n] < rank[sb[n][k]]
  }

  /** Every list entry is a node of the arena. */
  ghost predicate InRange(g: Arena) {
    forall n :: 0 <= n < |g| ==>
      (forall k :: 0 <= k < |g[n].subcategories| ==> g[n].subcategories[k] < |g|) &&
      (forall k :: 0 <= k < |g[n].supercategories| ==> g[n].supercategories[k] < |g|)
  }

  /** The arena invariant: links stay inside the arena, follow the rank
      (so the recursive propagation terminates) and no list repeats a node. */
  ghost predicate Valid(g: Arena, rank: seq<nat>) {
    && InRange(g)
    && RankedUp(Supers(g), rank)
    && RankedDown(Subs(g), rank)
    && forall n :: 0 <= n < |g| ==> NoDup(g[n].subcategories) && NoDup(g[n].supercategories)
  }

  /** An upper bound on every rank, for the upward-counting measure. */
  ghost function Ceiling(rank: seq<nat>): (c: nat)
    ensures forall i :: 0 <= i < |rank| ==> rank[i] < c
  {
    if rank == [] then 0
    else
      var c := Ceiling(rank[..|rank| - 1]);
      if rank[|rank| - 1] < c then c else rank[|rank| - 1] + 1
  }

  /** `n` and every node reachable from it through supercategory links. */
  ghost function Upward(sp: seq<seq<nat>>, rank: seq<nat>, n: nat): (r: set<nat>)
    requires RankedUp(sp, rank) && n < |sp|
    ensures n in r
    ensures forall m :: m in r ==> m < |sp| && rank[m] <= rank[n]
    decreases rank[n], 1, 0
  {
    {n} + UpwardAll(sp, rank, sp[n], rank[n])
  }

  ghost function UpwardAll(sp: seq<seq<nat>>, rank: seq<nat>, ns: seq<nat>, bound: nat): (r: set<nat>)
    requires RankedUp(sp, rank)
    requires forall k :: 0 <= k < |ns| ==> ns[k] < |sp| && rank[ns[k]] < bound
    ensures forall m :: m in r ==> m < |sp| && rank[m] < bound
    decreases bound, 0, |ns|
  {
    if ns == [] then {}
    else Upward(sp, rank, ns[0]) + UpwardAll(sp, rank, ns[1..], bound)
  }

  /** `n` and every node reachable from it through subcategory links. */
  ghost function Downward(sb: seq<seq<nat>>, rank: seq<nat>, n: nat): (r: set<nat>)
    requires RankedDown(sb, rank) && n < |sb|
    ensures n in r
    ensures forall m :: m in r ==> m < |sb| && rank[n] <= rank[m]
    decreases Ceiling(rank) - rank[n], 1, 0
  {
    {n} + DownwardAll(sb, rank, sb[n], rank[n])
  }

  ghost function DownwardAll(sb: seq<seq<nat>>, rank: seq<nat>, ns: seq<nat>, floor: nat): (r: set<nat>)
    requires RankedDown(sb, rank) && floor < Ceiling(rank)
    requires forall k :: 0 <= k < |ns| ==> ns[k] < |sb| && floor < rank[ns[k]]
    ensures forall m :: m in r ==> m < |sb| && floor < rank[m]
    decreases Ceiling(rank) - floor, 0, |ns|
  {
    if ns == [] then {}
    else Downward(sb, rank, ns[0]) + DownwardAll(sb, rank, ns[1..], floor)
  }

  /** The nodes strictly above `n`: reachable from it through one or more
      supercategory links. */
  ghost function Above(sp: seq<seq<nat>>, rank: seq<nat>, n: nat): (r: set<nat>)
    requires RankedUp(sp, rank) && n < |sp|
    ensures Upward(sp, rank, n) == {n} + r && n !in r
    ensures forall k :: 0 <= k < |sp[n]| ==> sp[n][k] in r
  {
    UpwardAllListed(sp, rank, sp[n], rank[n]);
    UpwardAll(sp, rank, sp[n], rank[n])
  }

  /** The nodes strictly below `n`: reachable from it through one or more
      subcategory links. */
  ghost function Below(sb: seq<seq<nat>>, rank: seq<nat>, n: nat): (r: set<nat>)
    requires RankedDown(sb, rank) && n < |sb|
    ensures n !in r
    ensures forall k :: 0 <= k < |sb[n]| ==> sb[n][k] in r
  {
    assert rank[n] < Ceiling(rank);
    DownwardAllListed(sb, rank, sb[n], rank[n]);
    DownwardAll(sb, rank, sb[n], rank[n])
  }

  /** The walk over a list reaches every node of the list. */
  lemma {:induction false} UpwardAllListed(sp: seq<seq<nat>>, rank: seq<nat>, ns: seq<nat>, bound: nat)
    requires RankedUp(sp, rank)
    requires forall k :: 0 <= k < |ns| ==> ns[k] < |sp| && rank[ns[k]] < bound
    ensures forall k :: 0 <= k < |ns| ==> ns[k] in UpwardAll(sp, rank, ns, bound)
    decreases |ns|
  {
    if ns != [] {
      UpwardAllListed(sp, rank, ns[1..], bound);
      forall k | 0 < k < |ns|
        ensures ns[k] in UpwardAll(sp, rank, ns, bound)
      {
        assert ns[1..][k - 1] == ns[k];
      }
    }
  }

  lemma {:induction false} DownwardAllListed(sb: seq<seq<nat>>, rank: seq<nat>, ns: seq<nat>, floor: nat)
    requires RankedDown(sb, rank) && floor < Ceiling(rank)
    requires forall k :: 0 <= k < |ns| ==> ns[k] < |sb| && floor < rank[ns[k]]
    ensures forall k :: 0 <= k < |ns| ==> ns[k] in DownwardAll(sb, rank, ns, floor)
    decreases |ns|
  {
    if ns != [] {
      DownwardAllListed(sb, rank, ns[1..], floor);
      forall k | 0 < k < |ns|
        ensures ns[k] in DownwardAll(sb, rank, ns, floor)
      {
        assert ns[1..][k - 1] == ns[k];
      }
    }
  }

  /** `r` is `g` with `d` added once to the subcategory list of every node in
      `targets`, and nothing else changed. */
  ghost predicate SubcategoryAddedAt(g: Arena, r: Arena, targets: set<nat>, d: nat) {
    && |r| == |g|
    && forall m :: 0 <= m < |g| ==>
         r[m] == if m in targets then g[m].(subcategories := AddOnce(g[m].subcategories, d)) else g[m]
  }

  /** `r` is `g` with `d` added once to the supercategory list of every node
      in `targets`, and nothing else changed. */
  ghost predicate SupercategoryAddedAt(g: Arena, r: Arena, targets: set<nat>, d: nat) {
    && |r| == |g|
    && forall m :: 0 <= m < |g| ==>
         r[m] == if m in targets then g[m].(supercategories := AddOnce(g[m].supercategories, d)) else g[m]
  }

  /** Every list of `g` is a prefix of the same list in `r`: entries are
      only ever appended, and definitions and descriptors stay. */
  ghost predicate Grows(g: Arena, r: Arena) {
    && |r| == |g|
    && forall m :: 0 <= m < |g| ==>
         && r[m].definition == g[m].definition
         && r[m].descriptor == g[m].descriptor
         && g[m].subcategories <= r[m].subcategories
         && g[m].supercategories <= r[m].supercategories
  }

  lemma GrowsTransitive(g: Arena, h: Arena, r: Arena)
    requires Grows(g, h) && Grows(h, r)
    ensures Grows(g, r)
  {
  }

  /** Growing keeps the definitions. */
  lemma GrowsKeepsDefinitions(g: Arena, r: Arena)
    requires Grows(g, r)
    ensures Definitions(r) == Definitions(g)
  {
    assert forall m :: 0 <= m < |g| ==> Definitions(r)[m] == Definitions(g)[m];
  }

  lemma SubcategoryAddedCompose(g: Arena, h: Arena, r: Arena, a: set<nat>, b: set<nat>, d: nat)
    requires SubcategoryAddedAt(g, h, a, d) && SubcategoryAddedAt(h, r, b, d)
    ensures SubcategoryAddedAt(g, r, a + b, d)
  {
  }

  lemma SupercategoryAddedCompose(g: Arena, h: Arena, r: Arena, a: set<nat>, b: set<nat>, d: nat)
    requires SupercategoryAddedAt(g, h, a, d) && SupercategoryAddedAt(h, r, b, d)
    ensures SupercategoryAddedAt(g, r, a + b, d)
  {
  }

  /** Adding a subcategory or a supercategory only appends. */
  lemma SubcategoryAddedGrows(g: Arena, r: Arena, targets: set<nat>, d: nat)
    requires SubcategoryAddedAt(g, r, targets, d)
    ensures Grows(g, r)
  {
  }

  lemma SupercategoryAddedGrows(g: Arena, r: Arena, targets: set<nat>, d: nat)
    requires SupercategoryAddedAt(g, r, targets, d)
    ensures Grows(g, r)
  {
  }

  /** An entry once listed stays listed as the arena grows. */
  lemma GrowsKeepsEntries(g: Arena, r: Arena, m: nat, x: nat)
    requires Grows(g, r) && m < |g|
    ensures x in g[m].subcategories ==> x in r[m].subcategories
    ensures x in g[m].supercategories ==> x in r[m].supercategories
  {
    assert g[m].subcategories <= r[m].subcategories;
    assert g[m].supercategories <= r[m].supercategories;
  }

  /** After the addition every target lists `d`. */
  lemma SubcategoryAddedReaches(g: Arena, r: Arena, targets: set<nat>, d: nat, m: nat)
    requires SubcategoryAddedAt(g, r, targets, d) && m in targets && m < |g|
    ensures d in r[m].subcategories
  {
  }

  lemma SupercategoryAddedReaches(g: Arena, r: Arena, targets: set<nat>, d: nat, m: nat)
    requires SupercategoryAddedAt(g, r, targets, d) && m in targets && m < |g|
    ensures d in r[m].supercategories
  {
  }

  /** Each addition touches only its own kind of list, node by node. */
  lemma SubcategoryAddedKeepsSupers(g: Arena, r: Arena, targets: set<nat>, d: nat, m: nat)
    requires SubcategoryAddedAt(g, r, targets, d) && m < |g|
    ensures r[m].supercategories == g[m].supercategories
  {
  }

  lemma SupercategoryAddedKeepsSubs(g: Arena, r: Arena, targets: set<nat>, d: nat, m: nat)
    requires SupercategoryAddedAt(g, r, targets, d) && m < |g|
    ensures r[m].subcategories == g[m].subcategories
  {
  }

  /** Adding a subcategory leaves the supercategory lists and the definitions
      as they were. */
  lemma SubcategoryAddedFrames(g: Arena, r: Arena, targets: set<nat>, d: nat)
    requires SubcategoryAddedAt(g, r, targets, d)
    ensures Supers(r) == Supers(g) && Definitions(r) == Definitions(g)
  {
    assert forall m :: 0 <= m < |g| ==> r[m].supercategories == g[m].supercategories;
  }

  /** Adding a supercategory leaves the subcategory lists and the definitions
      as they were. */
  lemma SupercategoryAddedFrames(g: Arena, r: Arena, targets: set<nat>, d: nat)
    requires SupercategoryAddedAt(g, r, targets, d)
    ensures Subs(r) == Subs(g) && Definitions(r) == Definitions(g)
  {
    assert forall m :: 0 <= m < |g| ==> r[m].subcategories == g[m].subcategories;
  }

  /** The first step of `AddSubcategory`: `d` added once to the list of
      `n` alone keeps the arena invariant. */
  lemma SubcategoryAddedHere(g: Arena, rank: seq<nat>, n: nat, d: nat)
    requires Valid(g, rank) && n < |g| && d < |g| && rank[n] < rank[d]
    ensures var g' := g[n := g[n].(subcategories := AddOnce(g[n].subcategories, d))];
      && Valid(g', rank) && SubcategoryAddedAt(g, g', {n}, d) && Supers(g') == Supers(g)
      && (forall k :: 0 <= k < |g[n].supercategories| ==>
            g[n].supercategories[k] < |g| && rank[g[n].supercategories[k]] < rank[n])
      && Upward(Supers(g), rank, n) == {n} + UpwardAll(Supers(g), rank, g[n].supercategories, rank[n])
  {
    var g' := g[n := g[n].(subcategories := AddOnce(g[n].subcategories, d))];
    assert SubcategoryAddedAt(g, g', {n}, d);
    SubcategoryAddedFrames(g, g', {n}, d);
    assert Subs(g') == Subs(g)[n := g'[n].subcategories];
    assert Supers(g)[n] == g[n].supercategories;
  }

  /** The first step of `AddSupercategory`: `d` added once to the list of
      `n` alone keeps the arena invariant. */
  lemma SupercategoryAddedHere(g: Arena, rank: seq<nat>, n: nat, d: nat)
    requires Valid(g, rank) && n < |g| && d < |g| && rank[d] < rank[n]
    ensures var g' := g[n := g[n].(supercategories := AddOnce(g[n].supercategories, d))];
      && Valid(g', rank) && SupercategoryAddedAt(g, g', {n}, d) && Subs(g') == Subs(g)
      && rank[n] < Ceiling(rank)
      && (forall k :: 0 <= k < |g[n].subcategories| ==>
            g[n].subcategories[k] < |g| && rank[n] < rank[g[n].subcategories[k]])
      && Downward(Subs(g), rank, n) == {n} + DownwardAll(Subs(g), rank, g[n].subcategories, rank[n])
  {
    var g' := g[n := g[n].(supercategories := AddOnce(g[n].supercategories, d))];
    assert SupercategoryAddedAt(g, g', {n}, d);
    SupercategoryAddedFrames(g, g', {n}, d);
    assert Supers(g') == Supers(g)[n := g'[n].supercategories];
    assert Subs(g)[n] == g[n].subcategories;
  }

  /** `CategoryData.AddSubcategory` on node `n`: adds `d` once to the
      subcategory list of `n` and, recursively, of every node reachable
      from `n` through supercategory links. */
  function AddSubcategory(g: Arena, rank: seq<nat>, n: nat, d: nat): (r: Arena)
    requires Valid(g, rank) && n < |g| && d < |g| && rank[n] < rank[d]
    ensures Valid(r, rank)
    ensures SubcategoryAddedAt(g, r, Upward(Supers(g), rank, n), d)
    decreases rank[n], 1, 0
  {
    var g' := g[n := g[n].(subcategories := AddOnce(g[n].subcategories, d))];
    SubcategoryAddedHere(g, rank, n, d);
    var r := AddSubcategoryToAll(g', rank, g[n].supercategories, d, rank[n]);
    SubcategoryAddedAbove(g, g', r, rank, n, d);
    r
  }

  lemma SubcategoryAddedAbove(g: Arena, g': Arena, r: Arena, rank: seq<nat>, n: nat, d: nat)
    requires RankedUp(Supers(g), rank) && n < |g|
    requires forall k :: 0 <= k < |g[n].supercategories| ==>
      g[n].supercategories[k] < |g| && rank[g[n].supercategories[k]] < rank[n]
    requires Upward(Supers(g), rank, n) == {n} + UpwardAll(Supers(g), rank, g[n].supercategories, rank[n])
    requires SubcategoryAddedAt(g, g', {n}, d) && Supers(g') == Supers(g)
    requires SubcategoryAddedAt(g', r, UpwardAll(Supers(g'), rank, g[n].supercategories, rank[n]), d)
    ensures SubcategoryAddedAt(g, r, Upward(Supers(g), rank, n), d)
  {
    SubcategoryAddedCompose(g, g', r, {n}, UpwardAll(Supers(g), rank, g[n].supercategories, rank[n]), d);
  }

  /** The `foreach` over a supercategory list inside `AddSubcategory`. */
  function AddSubcategoryToAll(g: Arena, rank: seq<nat>, ns: seq<nat>, d: nat, bound: nat): (r: Arena)
    requires Valid(g, rank) && d < |g| && bound <= rank[d]
    requires forall k :: 0 <= k < |ns| ==> ns[k] < |g| && rank[ns[k]] < bound
    ensures Valid(r, rank)
    ensures SubcategoryAddedAt(g, r, UpwardAll(Supers(g), rank, ns, bound), d)
    decreases bound, 0, |ns|
  {
    if ns == [] then g
    else
      var g' := AddSubcategory(g, rank, ns[0], d);
      SubcategoryAddedFrames(g, g', Upward(Supers(g), rank, ns[0]), d);
      var r := AddSubcategoryToAll(g', rank, ns[1..], d, bound);
      SubcategoryAddedAcross(g, g', r, rank, ns, d, bound);
      r
  }

  lemma SubcategoryAddedAcross(g: Arena, g': Arena, r: Arena, rank: seq<nat>, ns: seq<nat>, d: nat, bound: nat)
    requires RankedUp(Supers(g), rank) && ns != []
    requires forall k :: 0 <= k < |ns| ==> ns[k] < |g| && rank[ns[k]] < bound
    requires SubcategoryAddedAt(g, g', Upward(Supers(g), rank, ns[0]), d) && Supers(g') == Supers(g)
    requires SubcategoryAddedAt(g', r, UpwardAll(Supers(g'), rank, ns[1..], bound), d)
    ensures SubcategoryAddedAt(g, r, UpwardAll(Supers(g), rank, ns, bound), d)
  {
    SubcategoryAddedCompose(g, g', r, Upward(Supers(g), rank, ns[0]), UpwardAll(Supers(g), rank, ns[1..], bound), d);
  }

  /** `CategoryData.AddSupercategory` on node `n`: adds `d` once to the
      supercategory list of `n` and, recursively, of every node reachable
      from `n` through subcategory links. */
  function AddSupercategory(g: Arena, rank: seq<nat>, n: nat, d: nat): (r: Arena)
    requires Valid(g, rank) && n < |g| && d < |g| && rank[d] < rank[n]
    ensures Valid(r, rank)
    ensures SupercategoryAddedAt(g, r, Downward(Subs(g), rank, n), d)
    decreases Ceiling(rank) - rank[n], 1, 0
  {
    var g' := g[n := g[n].(supercategories := AddOnce(g[n].supercategories, d))];
    SupercategoryAddedHere(g, rank, n, d);
    var r := AddSupercategoryToAll(g', rank, g[n].subcategories, d, rank[n]);
    SupercategoryAddedBelow(g, g', r, rank, n, d);
    r
  }

  lemma SupercategoryAddedBelow(g: Arena, g': Arena, r: Arena, rank: seq<nat>, n: nat, d: nat)
    requires RankedDown(Subs(g), rank) && n < |g| && rank[n] < Ceiling(rank)
    requires forall k :: 0 <= k < |g[n].subcategories| ==>
      g[n].subcategories[k] < |g| && rank[n] < rank[g[n].subcategories[k]]
    requires Downward(Subs(g), rank, n) == {n} + DownwardAll(Subs(g), rank, g[n].subcategories, rank[n])
    requires SupercategoryAddedAt(g, g', {n}, d) && Subs(g') == Subs(g)
    requires SupercategoryAddedAt(g', r, DownwardAll(Subs(g'), rank, g[n].subcategories, rank[n]), d)
    ensures SupercategoryAddedAt(g, r, Downward(Subs(g), rank, n), d)
  {
    SupercategoryAddedCompose(g, g', r, {n}, DownwardAll(Subs(g), rank, g[n].subcategories, rank[n]), d);
  }

  /** The `foreach` over a subcategory list inside `AddSupercategory`. */
  function AddSupercategoryToAll(g: Arena, rank: seq<nat>, ns: seq<nat>, d: nat, floor: nat): (r: Arena)
    requires Valid(g, rank) && d < |g| && rank[d] <= floor < Ceiling(rank)
    requires forall k :: 0 <= k < |ns| ==> ns[k] < |g| && floor < rank[ns[k]]
    ensures Valid(r, rank)
    ensures SupercategoryAddedAt(g, r, DownwardAll(Subs(g), rank, ns, floor), d)
    decreases Ceiling(rank) - floor, 0, |ns|
  {
    if ns == [] then g
    else
      var g' := AddSupercategory(g, rank, ns[0], d);
      SupercategoryAddedFrames(g, g', Downward(Subs(g), rank, ns[0]), d);
      var r := AddSupercategoryToAll(g', rank, ns[1..], d, floor);
      SupercategoryAddedAcross(g, g', r, rank, ns, d, floor);
      r
  }

  lemma SupercategoryAddedAcross(g: Arena, g': Arena, r: Arena, rank: seq<nat>, ns: seq<nat>, d: nat, floor: nat)
    requires RankedDown(Subs(g), rank) && floor < Ceiling(rank) && ns != []
    requires forall k :: 0 <= k < |ns| ==> ns[k] < |g| && floor < rank[ns[k]]
    requires SupercategoryAddedAt(g, g', Downward(Subs(g), rank, ns[0]), d) && Subs(g') == Subs(g)
    requires SupercategoryAddedAt(g', r, DownwardAll(Subs(g'), rank, ns[1..], floor), d)
    ensures SupercategoryAddedAt(g, r, DownwardAll(Subs(g), rank, ns, floor), d)
  {
    SupercategoryAddedCompose(g, g', r, Downward(Subs(g), rank, ns[0]), DownwardAll(Subs(g), rank, ns[1..], floor), d);
  }

  /** `CategoryData.IsCategoryOf`: whether `category` is the node's own id or
      one of the supercategory ids of its descriptor. The live lists are not
      consulted. */
  method IsCategoryOf(data: CategoryData, category: string) returns (b: bool)
    ensures b <==> category == data.id() || category in data.descriptor.supercategoryIds
  {
    if data.id() == category {
      return true;
    }
    var ids := data.descriptor.supercategoryIds;
    var i := 0;
    while i < |ids|
      invariant 0 <= i <= |ids|
      invariant category !in ids[..i]
    {
      if category == ids[i] {
        return true;
      }
      i := i + 1;
    }
    return false;
  }
}
