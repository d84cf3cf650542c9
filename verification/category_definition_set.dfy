/** `CategoryDefinitionSet`: the clean-up pass over a stored definition list. */
module CategoryDefinitionSet {
  import opened Lists
  import opened CategoryDefinitions

  /** The definitions from position `lo` on that `Optimize` keeps, tidied,
      in their original order: the reference the in-place loop is checked
      against. */
  function Optimized(content: seq<StoredDefinition>, lo: nat): seq<StoredDefinition>
    decreases |content| - lo
  {
    if lo >= |content| then []
    else if HasId(content[lo]) then [Tidied(content[lo])] + Optimized(content, lo + 1)
    else Optimized(content, lo + 1)
  }

  /** The reference keeps exactly the definitions with an id, in order, each
      tidied. */
  lemma {:induction false} OptimizedKeepsIdentified(content: seq<StoredDefinition>, lo: nat)
    ensures var kept := IndicesFrom(content, HasId, lo);
            var r := Optimized(content, lo);
            |r| == |kept| && forall j :: 0 <= j < |r| ==> r[j] == Tidied(content[kept[j]])
    decreases |content| - lo
  {
    if lo < |content| {
      OptimizedKeepsIdentified(content, lo + 1);
      var kept, r := IndicesFrom(content, HasId, lo + 1), Optimized(content, lo + 1);
      if HasId(content[lo]) {
        assert IndicesFrom(content, HasId, lo) == [lo] + kept;
        assert Optimized(content, lo) == [Tidied(content[lo])] + r;
      } else {
        assert IndicesFrom(content, HasId, lo) == kept;
        assert Optimized(content, lo) == r;
      }
    }
  }

  /** Read from the start, the reference is the definitions with an id, in
      their original order, each tidied. */
  lemma OptimizedDefinitions(content: seq<StoredDefinition>)
    ensures forall d :: d in Optimized(content, 0) ==> HasId(d)
    ensures var kept := IndicesWhere(content, HasId);
            var r := Optimized(content, 0);
            |r| == |kept| && forall j :: 0 <= j < |r| ==> r[j] == Tidied(content[kept[j]])
  {
    OptimizedKeepsIdentified(content, 0);
    var kept := IndicesWhere(content, HasId);
    assert forall j :: 0 <= j < |kept| ==> kept[j] in kept;
  }

  /** `CategoryDefinitionSet.Optimize`, the loop before the call to
      `DataUtility.OptimizeDefinitions`: walks the list from the back,
      removing each definition whose id is null or empty and tidying the
      base ids of the others in place. */
  method Optimize(content: seq<StoredDefinition>) returns (r: seq<StoredDefinition>)
    ensures r == Optimized(content, 0)
    ensures forall d :: d in r ==> HasId(d)
    ensures var kept := IndicesWhere(content, HasId);
            |r| == |kept| &&
            forall j :: 0 <= j < |r| ==> r[j] == Tidied(content[kept[j]])
  {
    r := content;
    var i := |content| - 1;
    while i >= 0
      invariant -1 <= i < |content|
      invariant r == content[..i + 1] + Optimized(content, i + 1)
    {
      var element := r[i];
      OptimizeStep(content, i, r);
      if IsNullOrEmpty(element.id) {
        r := r[..i] + r[i + 1..];
      } else {
        // RemoveAll of the null or empty base ids, then Remove of the own id
        r := r[i := Tidied(element)];
      }
      i := i - 1;
    }
    assert r == Optimized(content, 0);
    OptimizedDefinitions(content);
  }

  /** One iteration of the loop in `Optimize` extends the processed suffix
      by position `i`. */
  lemma OptimizeStep(content: seq<StoredDefinition>, i: nat, r: seq<StoredDefinition>)
    requires i < |content| && r == content[..i + 1] + Optimized(content, i + 1)
    ensures r[i] == content[i]
    ensures IsNullOrEmpty(r[i].id) ==> r[..i] + r[i + 1..] == content[..i] + Optimized(content, i)
    ensures !IsNullOrEmpty(r[i].id) ==> r[i := Tidied(r[i])] == content[..i] + Optimized(content, i)
  {
    var rest := Optimized(content, i + 1);
    assert r[..i] == content[..i];
    assert r[i + 1..] == rest;
    if HasId(content[i]) {
      assert Optimized(content, i) == [Tidied(content[i])] + rest;
      assert r[i := Tidied(r[i])] == content[..i] + [Tidied(content[i])] + rest;
    } else {
      assert Optimized(content, i) == rest;
    }
  }
}
