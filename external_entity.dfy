/**
 * External entities and their merge. An entity is a value: the Java fields
 * are set once by a constructor, and `merge` builds a new entity. The three
 * concrete Java classes are the three `Variant`s; a null singular field is
 * `None`. The creation timestamp is not modelled (equality ignores it).
 */
module ExternalEntities {
  import opened Wrappers
  import ConditionTemplateValues

  datatype EntityType = DISCOVERED | GROUP | INDIVIDUAL

  /**
   * The concrete class with its own field. A DiscoveredExternalEntity read
   * from JSON without `externalEntityIds` has that field null.
   */
  datatype Variant =
    | Individual
    | Group(members: set<ConditionTemplateValues.CandidateValue>)
    | Discovered(externalEntityIds: Option<set<string>>)

  datatype ExternalEntity = ExternalEntity(
    id: Option<string>,
    entityId: Option<string>,
    description: Option<string>,
    displayName: Option<string>,
    surfaceForms: set<string>,
    tag: Option<string>,
    claimValue: Option<string>,
    entityTypeIds: set<string>,
    variant: Variant)
  {
    /** Each constructor passes the type constant of its own class. */
    function Type(): EntityType
    {
      match variant
      case Individual => INDIVIDUAL
      case Group(_) => GROUP
      case Discovered(_) => DISCOVERED
    }

    /** getClass() == o.getClass() */
    predicate SameClass(o: ExternalEntity)
    {
      Type() == o.Type()
    }
  }

  /** An entity as built by one of the public constructors: no store id. */
  function NewEntity(entityId: Option<string>, typeIds: set<string>, displayName: Option<string>,
                     surfaceForms: set<string>, description: Option<string>, tag: Option<string>,
                     claimValue: Option<string>, variant: Variant): (e: ExternalEntity)
    ensures e.id == None && e.entityId == entityId && e.entityTypeIds == typeIds
    ensures e.displayName == displayName && e.surfaceForms == surfaceForms
    ensures e.description == description && e.tag == tag && e.claimValue == claimValue
    ensures e.variant == variant
  {
    ExternalEntity(None, entityId, description, displayName, surfaceForms, tag, claimValue, typeIds, variant)
  }

  function EqualsOrOneIsNull<T(==)>(one: Option<T>, other: Option<T>): (r: bool)
    ensures one.None? || other.None? ==> r
    ensures one.Some? && other.Some? ==> (r <==> one.value == other.value)
  {
    if one.Some? && other.Some? then one.value == other.value else true
  }

  function FirstOrSecondIfNull<T>(first: Option<T>, second: Option<T>): (r: Option<T>)
    ensures first.Some? ==> r == first
    ensures first.None? ==> r == second
    ensures r.Some? <==> first.Some? || second.Some?
  {
    if first.None? then second else first
  }

  /** Two entities can be merged if they are of the same class and share every non-null singular value. */
  predicate CanBeMerged(e: ExternalEntity, o: Option<ExternalEntity>)
  {
    o.Some?
    && e.SameClass(o.value)
    && EqualsOrOneIsNull(e.entityId, o.value.entityId)
    && EqualsOrOneIsNull(e.displayName, o.value.displayName)
    && EqualsOrOneIsNull(e.description, o.value.description)
    && EqualsOrOneIsNull(e.tag, o.value.tag)
    && EqualsOrOneIsNull(e.claimValue, o.value.claimValue)
  }

  /** A null or differently classed argument is never mergeable. */
  lemma CanBeMergedNeedsSameClass(e: ExternalEntity, o: Option<ExternalEntity>)
    ensures o.None? ==> !CanBeMerged(e, o)
    ensures o.Some? && o.value.Type() != e.Type() ==> !CanBeMerged(e, o)
  {
  }

  lemma CanBeMergedReflexive(e: ExternalEntity)
    ensures CanBeMerged(e, Some(e))
  {
  }

  lemma CanBeMergedSymmetric(a: ExternalEntity, b: ExternalEntity)
    ensures CanBeMerged(a, Some(b)) <==> CanBeMerged(b, Some(a))
  {
  }

  /**
   * ExternalEntity.equals: same class and equal fields, the store id
   * included. GroupExternalEntity adds its members; DiscoveredExternalEntity
   * does not override equals, so its externalEntityIds are ignored.
   */
  predicate Equals(a: ExternalEntity, b: ExternalEntity)
  {
    a.SameClass(b)
    && a.id == b.id
    && a.entityId == b.entityId
    && a.description == b.description
    && a.displayName == b.displayName
    && a.surfaceForms == b.surfaceForms
    && a.tag == b.tag
    && a.claimValue == b.claimValue
    && a.entityTypeIds == b.entityTypeIds
    && (a.variant.Group? && b.variant.Group? ==> a.variant.members == b.variant.members)
  }

  /** Equality is structural apart from the externalEntityIds of discovered entities. */
  lemma EqualsIsStructural(a: ExternalEntity, b: ExternalEntity)
    ensures !a.variant.Discovered? ==> (Equals(a, b) <==> a == b)
    ensures a.variant.Discovered? && b.variant.Discovered? ==>
              (Equals(a, b) <==> a.(variant := Discovered(None)) == b.(variant := Discovered(None)))
  {
  }

  /** An entity with a store id is not equal to a copy of itself that has none. */
  lemma EqualsSeesStoreId(a: ExternalEntity)
    requires a.id.Some?
    ensures !Equals(a, a.(id := None))
  {
  }

  /**
   * The `merge` of the receiver's class. Singular fields keep the receiver's
   * value unless it is null; type ids, surface forms, members and
   * externalEntityIds are unions. The result is a new entity without a store id.
   */
  function Merge(e: ExternalEntity, o: Option<ExternalEntity>): (r: Result<ExternalEntity>)
    ensures !CanBeMerged(e, o) <==> r == Failure(IllegalArgument)
    ensures r.Success? ==> r.value.Type() == e.Type() && r.value.id == None
  {
    if !CanBeMerged(e, o) then Failure(IllegalArgument)
    else
      var other := o.value;
      var variant :-
        match e.variant
        case Individual => Success(Individual)
        case Group(members) => Success(Group(members + other.variant.members))
        case Discovered(ids) =>
          if ids.None? || other.variant.externalEntityIds.None? then Failure(NullPointer)
          else Success(Discovered(Some(ids.value + other.variant.externalEntityIds.value)));
      Success(NewEntity(
        FirstOrSecondIfNull(e.entityId, other.entityId),
        e.entityTypeIds + other.entityTypeIds,
        FirstOrSecondIfNull(e.displayName, other.displayName),
        e.surfaceForms + other.surfaceForms,
        FirstOrSecondIfNull(e.description, other.description),
        FirstOrSecondIfNull(e.tag, other.tag),
        FirstOrSecondIfNull(e.claimValue, other.claimValue),
        variant))
  }

  /** Unioning the externalEntityIds of a discovered entity needs both sets to be present. */
  predicate HasSets(e: ExternalEntity)
  {
    e.variant.Discovered? ==> e.variant.externalEntityIds.Some?
  }

  /** Merge succeeds exactly on mergeable arguments whose sets are present. */
  lemma MergeSucceeds(e: ExternalEntity, o: ExternalEntity)
    ensures Merge(e, Some(o)).Success? <==> CanBeMerged(e, Some(o)) && HasSets(e) && HasSets(o)
    ensures CanBeMerged(e, Some(o)) && !(HasSets(e) && HasSets(o)) ==> Merge(e, Some(o)) == Failure(NullPointer)
  {
  }

  /** Field by field: the receiver's singular values win, sets are unioned. */
  lemma MergeFields(e: ExternalEntity, o: ExternalEntity)
    requires Merge(e, Some(o)).Success?
    ensures var m := Merge(e, Some(o)).value;
      && m.entityId == (if e.entityId.Some? then e.entityId else o.entityId)
      && m.displayName == (if e.displayName.Some? then e.displayName else o.displayName)
      && m.description == (if e.description.Some? then e.description else o.description)
      && m.tag == (if e.tag.Some? then e.tag else o.tag)
      && m.claimValue == (if e.claimValue.Some? then e.claimValue else o.claimValue)
      && m.entityTypeIds == e.entityTypeIds + o.entityTypeIds
      && m.surfaceForms == e.surfaceForms + o.surfaceForms
      && (e.variant.Group? ==> m.variant == Group(e.variant.members + o.variant.members))
      && (e.variant.Discovered? ==>
            m.variant == Discovered(Some(e.variant.externalEntityIds.value + o.variant.externalEntityIds.value)))
      && (e.variant.Individual? ==> m.variant == Individual)
  {
  }

  /** Merging an entity with itself keeps every field but drops the store id. */
  lemma MergeSelf(e: ExternalEntity)
    requires HasSets(e)
    ensures Merge(e, Some(e)) == Success(e.(id := None))
  {
    assert e.surfaceForms + e.surfaceForms == e.surfaceForms;
    assert e.entityTypeIds + e.entityTypeIds == e.entityTypeIds;
    match e.variant
    case Individual =>
    case Group(ms) => assert ms + ms == ms;
    case Discovered(ids) => assert ids.value + ids.value == ids.value;
  }

  /** On mergeable entities the order of the arguments does not matter. */
  lemma MergeCommutative(a: ExternalEntity, b: ExternalEntity)
    requires CanBeMerged(a, Some(b))
    ensures Merge(a, Some(b)) == Merge(b, Some(a))
  {
    if Merge(a, Some(b)).Success? {
      var m1, m2 := Merge(a, Some(b)).value, Merge(b, Some(a)).value;
      assert m1.entityTypeIds == m2.entityTypeIds;
      assert m1.surfaceForms == m2.surfaceForms;
      match a.variant
      case Individual =>
      case Group(ms) => assert ms + b.variant.members == b.variant.members + ms;
      case Discovered(ids) =>
        var other := b.variant.externalEntityIds.value;
        assert ids.value + other == other + ids.value;
    }
  }

  /** A merge result is mergeable with a third entity exactly when both inputs are. */
  lemma MergedCanBeMerged(a: ExternalEntity, b: ExternalEntity, c: ExternalEntity)
    requires Merge(a, Some(b)).Success?
    ensures CanBeMerged(Merge(a, Some(b)).value, Some(c)) <==> CanBeMerged(a, Some(c)) && CanBeMerged(b, Some(c))
  {
  }

  /** An entity is mergeable with a merge result exactly when it is mergeable with both inputs. */
  lemma CanBeMergedWithMerged(a: ExternalEntity, b: ExternalEntity, c: ExternalEntity)
    requires Merge(b, Some(c)).Success?
    ensures CanBeMerged(a, Some(Merge(b, Some(c)).value)) <==> CanBeMerged(a, Some(b)) && CanBeMerged(a, Some(c))
  {
  }

  /** Merging is associative on pairwise mergeable entities. */
  lemma MergeAssociative(a: ExternalEntity, b: ExternalEntity, c: ExternalEntity)
    requires CanBeMerged(a, Some(b)) && CanBeMerged(b, Some(c)) && CanBeMerged(a, Some(c))
    requires HasSets(a) && HasSets(b) && HasSets(c)
    ensures Merge(a, Some(b)).Success? && Merge(b, Some(c)).Success?
    ensures Merge(Merge(a, Some(b)).value, Some(c)) == Merge(a, Some(Merge(b, Some(c)).value))
  {
    MergedCanBeMerged(a, b, c);
    CanBeMergedWithMerged(a, b, c);
    var ab := Merge(a, Some(b)).value;
    var bc := Merge(b, Some(c)).value;
    var l, r := Merge(ab, Some(c)).value, Merge(a, Some(bc)).value;
    assert l.entityTypeIds == r.entityTypeIds;
    assert l.surfaceForms == r.surfaceForms;
    match a.variant
    case Individual =>
    case Group(ms) =>
      assert (ms + b.variant.members) + c.variant.members == ms + (b.variant.members + c.variant.members);
    case Discovered(ids) =>
      var bs, cs := b.variant.externalEntityIds.value, c.variant.externalEntityIds.value;
      assert (ids.value + bs) + cs == ids.value + (bs + cs);
  }
}
