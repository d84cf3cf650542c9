/** Category definitions and the clean-up pass `CategoryDefinitionSet.Optimize`. */
module CategoryDefinitions {
  import opened Lists

  /** A category definition as the hierarchy consumes it: an id and the ids of
      its declared base (parent) categories, in declaration order. */
  datatype CategoryDefinition = CategoryDefinition(id: string, baseIds: seq<string>)

  /** A C# string as a definition set stores it: possibly null. */
  datatype Text = Null | Str(chars: string)

  /** `string.IsNullOrEmpty`. */
  predicate IsNullOrEmpty(t: Text) {
    t == Null || t == Str("")
  }

  /** A definition as held by a `CategoryDefinitionSet`, before clean-up:
      its id and its base ids may be null or empty. */
  datatype StoredDefinition = StoredDefinition(id: Text, baseIds: seq<Text>)

  /** Whether `Optimize` keeps the definition. */
  predicate HasId(d: StoredDefinition) {
    !IsNullOrEmpty(d.id)
  }

  /** What `Optimize` leaves of a kept definition: its base ids with every
      null or empty entry dropped and then the first occurrence of its own id
      dropped; a later repeat of its own id stays. */
  function Tidied(d: StoredDefinition): (r: StoredDefinition)
    requires HasId(d)
    ensures r.id == d.id
    ensures forall b :: b in r.baseIds ==> !IsNullOrEmpty(b)
  {
    d.(baseIds := RemoveFirst(RemoveAll(d.baseIds, IsNullOrEmpty), d.id))
  }

  /** Tidying keeps every usable base id as often as it was declared, except
      that one occurrence of the definition's own id is gone. */
  lemma TidiedBaseCounts(d: StoredDefinition)
    requires HasId(d)
    ensures forall b :: b in d.baseIds && !IsNullOrEmpty(b) && b != d.id ==>
              multiset(Tidied(d).baseIds)[b] == multiset(d.baseIds)[b]
    ensures d.id in d.baseIds ==>
              multiset(Tidied(d).baseIds)[d.id] == multiset(d.baseIds)[d.id] - 1
  {
    RemoveFirstCount(RemoveAll(d.baseIds, IsNullOrEmpty), d.id);
  }
}
