/** The linking loop of `CategoryDataSet.Initialize()` exactly as written:
    when a base id does not resolve, `TryGetValue` leaves `baseData` null and
    `data.AddSupercategory(baseData)` runs anyway, putting a null entry into
    the node's supercategory list (and, through the propagation, into those
    of its descendants). Lists only grow, and the export loop reads the id
    of every supercategory entry, so from that moment on the build can only
    end in a `NullReferenceException` escaping the constructor: during a
    later propagation through the null entry, during the leaf sweep, or at
    the latest during the export. The model does not track where it is
    thrown; it reports the first base id that brought the null in. */
module CategoryHierarchyAsWritten {
  import opened Wrappers
  import opened CategoryDefinitions
  import opened CategoryNodes
  import opened CategoryHierarchy

  /** The build ends in a `NullReferenceException`, caused by base id
      `baseId` of node `node` not resolving. */
  datatype Fault = NullReference(node: nat, baseId: string)

  /** One iteration of the linking loop as written. */
  function LinkBaseAsWritten(g: Arena, rank: seq<nat>, index: map<string, nat>, i: nat, b: string): (r: Result<Arena, Fault>)
    requires Valid(g, rank) && i < |g| && IndexInRange(index, |g|)
    requires b in index ==> rank[index[b]] < rank[i]
    ensures r.Success? <==> b in index
    ensures r.Failure? ==> r.error == NullReference(i, b)
    ensures r.Success? ==> Valid(r.value, rank) && Grows(g, r.value)
  {
    if b in index then Success(LinkBase(g, rank, index, i, b)) else Failure(NullReference(i, b))
  }

  /** The inner loop over one node's base ids, as written. */
  function LinkBasesAsWritten(g: Arena, rank: seq<nat>, index: map<string, nat>, i: nat, bs: seq<string>): (r: Result<Arena, Fault>)
    requires Valid(g, rank) && i < |g| && IndexInRange(index, |g|)
    requires forall k :: 0 <= k < |bs| && bs[k] in index ==> rank[index[bs[k]]] < rank[i]
    ensures r.Success? ==> Valid(r.value, rank) && Grows(g, r.value)
    decreases |bs|
  {
    if bs == [] then Success(g)
    else
      match LinkBaseAsWritten(g, rank, index, i, bs[0])
      case Failure(f) => Failure(f)
      case Success(g1) =>
        var r := LinkBasesAsWritten(g1, rank, index, i, bs[1..]);
        if r.Success? then GrowsTransitive(g, g1, r.value); r else r
  }

  /** The outer loop of the linking phase, as written. */
  function LinkFromAsWritten(g: Arena, rank: seq<nat>, index: map<string, nat>, i: nat): (r: Result<Arena, Fault>)
    requires Valid(g, rank) && i <= |g| && BasesRanked(Definitions(g), index, rank)
    decreases |g| - i
  {
    if i == |g| then Success(g)
    else
      BasesOfNodeRanked(g, index, rank, i);
      match LinkBasesAsWritten(g, rank, index, i, g[i].definition.baseIds)
      case Failure(f) => Failure(f)
      case Success(g1) =>
        GrowsKeepsDefinitions(g, g1);
        LinkFromAsWritten(g1, rank, index, i + 1)
  }

  /** Every id in `bs` resolves. */
  ghost predicate AllResolve(bs: seq<string>, index: map<string, nat>) {
    forall k :: 0 <= k < |bs| ==> bs[k] in index
  }

  /** Every base id of nodes `i`, `i + 1`, ... resolves. */
  ghost predicate AllBasesResolve(g: Arena, index: map<string, nat>, i: nat) {
    forall n :: i <= n < |g| ==> AllResolve(g[n].definition.baseIds, index)
  }

  lemma AllResolveStep(bs: seq<string>, index: map<string, nat>)
    requires bs != []
    ensures AllResolve(bs, index) <==> bs[0] in index && AllResolve(bs[1..], index)
  {
    if bs[0] in index && AllResolve(bs[1..], index) {
      forall k | 0 <= k < |bs| ensures bs[k] in index {
        if k > 0 { assert bs[k] == bs[1..][k - 1]; }
      }
    }
  }

  /** The inner loop as written succeeds exactly when every base id
      resolves, and then agrees with the corrected loop. */
  lemma {:induction false} LinkBasesAgrees(g: Arena, rank: seq<nat>, index: map<string, nat>, i: nat, bs: seq<string>)
    requires Valid(g, rank) && i < |g| && IndexInRange(index, |g|)
    requires forall k :: 0 <= k < |bs| && bs[k] in index ==> rank[index[bs[k]]] < rank[i]
    ensures LinkBasesAsWritten(g, rank, index, i, bs).Success? <==> AllResolve(bs, index)
    ensures LinkBasesAsWritten(g, rank, index, i, bs).Success? ==>
      LinkBasesAsWritten(g, rank, index, i, bs).value == LinkBases(g, rank, index, i, bs)
    decreases |bs|
  {
    if bs != [] {
      AllResolveStep(bs, index);
      if bs[0] in index {
        LinkBasesAsWrittenStep(g, rank, index, i, bs);
        var g1 := LinkBase(g, rank, index, i, bs[0]);
        LinkBasesAgrees(g1, rank, index, i, bs[1..]);
      } else {
        LinkBasesAsWrittenFails(g, rank, index, i, bs);
      }
    }
  }

  /** One resolving base id: both loops link it and go on with the rest. */
  lemma LinkBasesAsWrittenStep(g: Arena, rank: seq<nat>, index: map<string, nat>, i: nat, bs: seq<string>)
    requires Valid(g, rank) && i < |g| && IndexInRange(index, |g|)
    requires forall k :: 0 <= k < |bs| && bs[k] in index ==> rank[index[bs[k]]] < rank[i]
    requires bs != [] && bs[0] in index
    ensures var g1 := LinkBase(g, rank, index, i, bs[0]);
      && Valid(g1, rank)
      && (forall k :: 0 <= k < |bs[1..]| && bs[1..][k] in index ==> rank[index[bs[1..][k]]] < rank[i])
      && LinkBasesAsWritten(g, rank, index, i, bs) == LinkBasesAsWritten(g1, rank, index, i, bs[1..])
      && LinkBases(g, rank, index, i, bs) == LinkBases(g1, rank, index, i, bs[1..])
  {
  }

  /** A first base id that does not resolve faults the loop as written. */
  lemma LinkBasesAsWrittenFails(g: Arena, rank: seq<nat>, index: map<string, nat>, i: nat, bs: seq<string>)
    requires Valid(g, rank) && i < |g| && IndexInRange(index, |g|)
    requires forall k :: 0 <= k < |bs| && bs[k] in index ==> rank[index[bs[k]]] < rank[i]
    requires bs != [] && bs[0] !in index
    ensures LinkBasesAsWritten(g, rank, index, i, bs).Failure?
  {
  }

  lemma AllBasesResolveStep(g: Arena, g1: Arena, index: map<string, nat>, i: nat)
    requires i < |g| && |g1| == |g| && forall n :: 0 <= n < |g| ==> g1[n].definition == g[n].definition
    ensures AllBasesResolve(g, index, i) <==>
      AllResolve(g[i].definition.baseIds, index) && AllBasesResolve(g1, index, i + 1)
  {
  }

  /** The linking phase as written succeeds exactly when every base id of
      every node resolves, and then agrees with the corrected phase. */
  lemma {:induction false} LinkFromAgrees(g: Arena, rank: seq<nat>, index: map<string, nat>, i: nat)
    requires Valid(g, rank) && i <= |g| && BasesRanked(Definitions(g), index, rank)
    ensures LinkFromAsWritten(g, rank, index, i).Success? <==> AllBasesResolve(g, index, i)
    ensures LinkFromAsWritten(g, rank, index, i).Success? ==>
      LinkFromAsWritten(g, rank, index, i).value == LinkFrom(g, rank, index, i)
    decreases |g| - i
  {
    if i < |g| {
      var bs := g[i].definition.baseIds;
      if AllResolve(bs, index) {
        BasesOfNodeRanked(g, index, rank, i);
        var g1 := LinkBases(g, rank, index, i, bs);
        LinkFromAsWrittenStep(g, rank, index, i);
        LinkFromAgrees(g1, rank, index, i + 1);
        AgreesResolved(g, g1, rank, index, i);
      } else {
        LinkFromAsWrittenFails(g, rank, index, i);
        AgreesUnresolved(g, rank, index, i);
      }
    }
  }

  /** The induction step of `LinkFromAgrees` for a node whose base ids all
      resolve. */
  lemma AgreesResolved(g: Arena, g1: Arena, rank: seq<nat>, index: map<string, nat>, i: nat)
    requires Valid(g, rank) && i < |g| && BasesRanked(Definitions(g), index, rank)
    requires Valid(g1, rank) && BasesRanked(Definitions(g1), index, rank) && Grows(g, g1)
    requires AllResolve(g[i].definition.baseIds, index)
    requires LinkFromAsWritten(g, rank, index, i) == LinkFromAsWritten(g1, rank, index, i + 1)
    requires LinkFrom(g, rank, index, i) == LinkFrom(g1, rank, index, i + 1)
    requires LinkFromAsWritten(g1, rank, index, i + 1).Success? <==> AllBasesResolve(g1, index, i + 1)
    requires LinkFromAsWritten(g1, rank, index, i + 1).Success? ==>
      LinkFromAsWritten(g1, rank, index, i + 1).value == LinkFrom(g1, rank, index, i + 1)
    ensures LinkFromAsWritten(g, rank, index, i).Success? <==> AllBasesResolve(g, index, i)
    ensures LinkFromAsWritten(g, rank, index, i).Success? ==>
      LinkFromAsWritten(g, rank, index, i).value == LinkFrom(g, rank, index, i)
  {
    GrowsKeepsDefinitions(g, g1);
    AllBasesResolveStep(g, g1, index, i);
  }

  /** The induction step of `LinkFromAgrees` for a node with a base id that
      does not resolve. */
  lemma AgreesUnresolved(g: Arena, rank: seq<nat>, index: map<string, nat>, i: nat)
    requires Valid(g, rank) && i < |g| && BasesRanked(Definitions(g), index, rank)
    requires !AllResolve(g[i].definition.baseIds, index)
    requires LinkFromAsWritten(g, rank, index, i).Failure?
    ensures !AllBasesResolve(g, index, i)
  {
    AllBasesResolveStep(g, g, index, i);
  }

  /** A node whose base ids all resolve: both loops link it and go on with
      the next node. */
  lemma LinkFromAsWrittenStep(g: Arena, rank: seq<nat>, index: map<string, nat>, i: nat)
    requires Valid(g, rank) && i < |g| && BasesRanked(Definitions(g), index, rank)
    requires forall k :: 0 <= k < |g[i].definition.baseIds| && g[i].definition.baseIds[k] in index ==>
      rank[index[g[i].definition.baseIds[k]]] < rank[i]
    requires AllResolve(g[i].definition.baseIds, index)
    ensures var g1 := LinkBases(g, rank, index, i, g[i].definition.baseIds);
      && Valid(g1, rank) && BasesRanked(Definitions(g1), index, rank)
      && LinkFromAsWritten(g, rank, index, i) == LinkFromAsWritten(g1, rank, index, i + 1)
      && LinkFrom(g, rank, index, i) == LinkFrom(g1, rank, index, i + 1)
  {
    LinkBasesAgrees(g, rank, index, i, g[i].definition.baseIds);
    GrowsKeepsDefinitions(g, LinkBases(g, rank, index, i, g[i].definition.baseIds));
  }

  /** A node with a base id that does not resolve faults the loop as
      written. */
  lemma LinkFromAsWrittenFails(g: Arena, rank: seq<nat>, index: map<string, nat>, i: nat)
    requires Valid(g, rank) && i < |g| && BasesRanked(Definitions(g), index, rank)
    requires !AllResolve(g[i].definition.baseIds, index)
    ensures LinkFromAsWritten(g, rank, index, i).Failure?
  {
    BasesOfNodeRanked(g, index, rank, i);
    LinkBasesAgrees(g, rank, index, i, g[i].definition.baseIds);
  }

  /** `Initialize(List<CategoryDefinition>)` as written: the build faults as
      soon as a base id fails to resolve; otherwise it is the corrected
      build. */
  function InitializeAsWritten(s: CategoryDataSet, defs: seq<CategoryDefinition>, rank: seq<nat>): (r: Result<(CategoryDataSet, bool), Fault>)
    requires !s.isInitialized ==> s == Fresh && Acyclic(defs, rank)
  {
    if s.isInitialized then Success((s, false))
    else
      var m := Materialize(defs);
      MaterializeBuildable(defs, rank);
      match LinkFromAsWritten(m.content, rank, m.index, 0)
      case Failure(f) => Failure(f)
      case Success(_) => Success(Initialize(s, defs, rank))
  }

  /** Every base id of every definition names some definition. */
  ghost predicate Closed(defs: seq<CategoryDefinition>) {
    forall k, j :: 0 <= k < |defs| && 0 <= j < |defs[k].baseIds| ==>
      exists t :: 0 <= t < |defs| && defs[t].id == defs[k].baseIds[j]
  }

  /** As written, a build from a definition list succeeds exactly when every
      base id names some definition, and then it is the corrected build. */
  lemma InitializeAsWrittenAgrees(defs: seq<CategoryDefinition>, rank: seq<nat>)
    requires Acyclic(defs, rank)
    ensures InitializeAsWritten(Fresh, defs, rank).Success? <==> Closed(defs)
    ensures InitializeAsWritten(Fresh, defs, rank).Success? ==>
      InitializeAsWritten(Fresh, defs, rank).value == Initialize(Fresh, defs, rank)
  {
    var m := Materialize(defs);
    MaterializeBuildable(defs, rank);
    ResolvesWhenClosed(defs);
    LinkFromAgrees(m.content, rank, m.index, 0);
  }

  /** The materialised index resolves every base id exactly when the
      definitions are closed. */
  lemma ResolvesWhenClosed(defs: seq<CategoryDefinition>)
    ensures AllBasesResolve(Materialize(defs).content, Materialize(defs).index, 0) <==> Closed(defs)
  {
    var m := Materialize(defs);
    MaterializeIndex(defs);
    assert forall n :: 0 <= n < |defs| ==> m.content[n].definition == defs[n];
  }

  /** The smallest failing input: one category whose only base id names no
      category. The corrected build keeps the node as a root-less leaf. */
  lemma DanglingBaseFaults()
    ensures InitializeAsWritten(Fresh, [CategoryDefinition("Dog", ["Ghost"])], [0]) ==
      Failure(NullReference(0, "Ghost"))
    ensures Initialize(Fresh, [CategoryDefinition("Dog", ["Ghost"])], [0]).1
  {
    var defs := [CategoryDefinition("Dog", ["Ghost"])];
    var m := Materialize(defs);
    MaterializeIndex(defs);
    assert "Ghost" !in m.index;
    assert Acyclic(defs, [0]);
  }
}
