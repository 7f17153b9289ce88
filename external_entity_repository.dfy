/**
 * The file-backed external-entity repository. The entities of all files,
 * in stream order, are grouped by entityId and each group is reduced with
 * `mergeOrThrow`; the finders read the resulting map. Reading the JSON
 * files is not modelled: the input is the flattened sequence of entities.
 */
module ExternalEntityFilesRepository {
  import opened Wrappers
  import opened ExternalEntities
  import ConditionTemplateValues

  /** Incompatible entities with the same id are a loading error. */
  function MergeOrThrow(one: ExternalEntity, other: ExternalEntity): (r: Result<ExternalEntity>)
    ensures !CanBeMerged(one, Some(other)) <==> r == Failure(IllegalState)
    ensures CanBeMerged(one, Some(other)) ==> r == Merge(one, Some(other))
  {
    if !CanBeMerged(one, Some(other)) then Failure(IllegalState) else Merge(one, Some(other))
  }

  /**
   * groupingBy(entityId, reducing(mergeOrThrow)), one element at a time: the
   * first entity of an id is stored, later ones are merged into it. A null
   * entityId cannot be a key.
   */
  function GroupByEntityId(acc: map<string, ExternalEntity>, entities: seq<ExternalEntity>)
    : (r: Result<map<string, ExternalEntity>>)
    decreases |entities|
  {
    if |entities| == 0 then Success(acc)
    else
      var e := entities[0];
      if e.entityId.None? then Failure(NullPointer)
      else
        var key := e.entityId.value;
        var stored :- if key in acc then MergeOrThrow(acc[key], e) else Success(e);
        GroupByEntityId(acc[key := stored], entities[1..])
  }

  datatype Repository = Repository(entityIdToEntity: map<string, ExternalEntity>)

  function Load(entities: seq<ExternalEntity>): (r: Result<Repository>)
  {
    var m :- GroupByEntityId(map[], entities);
    Success(Repository(m))
  }

  /** Every stored entity sits under its own entityId. */
  ghost predicate KeyedById(m: map<string, ExternalEntity>)
  {
    forall k :: k in m ==> m[k].entityId == Some(k)
  }

  ghost function EntityIds(entities: seq<ExternalEntity>): set<string>
  {
    set i | 0 <= i < |entities| && entities[i].entityId.Some? :: entities[i].entityId.value
  }

  /** Surface forms of all entities with the given id. */
  ghost function SurfaceFormsOf(entities: seq<ExternalEntity>, key: string): set<string>
  {
    set i, x | 0 <= i < |entities| && entities[i].entityId == Some(key) && x in entities[i].surfaceForms :: x
  }

  /** The loaded map has one entry per distinct entityId, stored under that id. */
  lemma {:induction false} GroupByEntityIdKeys(acc: map<string, ExternalEntity>, entities: seq<ExternalEntity>)
    requires KeyedById(acc)
    requires GroupByEntityId(acc, entities).Success?
    ensures var m := GroupByEntityId(acc, entities).value;
      KeyedById(m) && m.Keys == acc.Keys + EntityIds(entities)
    decreases |entities|
  {
    if |entities| > 0 {
      var e := entities[0];
      var key := e.entityId.value;
      var stored := (if key in acc then MergeOrThrow(acc[key], e) else Success(e)).value;
      if key in acc {
        MergeFields(acc[key], e);
      }
      GroupByEntityIdKeys(acc[key := stored], entities[1..]);
      assert EntityIds(entities) == {key} + EntityIds(entities[1..]) by {
        forall k | k in EntityIds(entities)
          ensures k in {key} + EntityIds(entities[1..])
        {
          var i :| 0 <= i < |entities| && entities[i].entityId == Some(k);
          if i > 0 {
            assert entities[1..][i - 1] == entities[i];
          }
        }
        forall k | k in EntityIds(entities[1..])
          ensures k in EntityIds(entities)
        {
          var i :| 0 <= i < |entities[1..]| && entities[1..][i].entityId == Some(k);
          assert entities[i + 1] == entities[1..][i];
        }
      }
    }
  }

  /** Each stored entity's surface forms are the union of those of every entity loaded with its id. */
  lemma {:induction false} GroupByEntityIdSurfaceForms(acc: map<string, ExternalEntity>, entities: seq<ExternalEntity>)
    requires GroupByEntityId(acc, entities).Success?
    ensures var m := GroupByEntityId(acc, entities).value;
      forall k :: k in m ==>
        m[k].surfaceForms == (if k in acc then acc[k].surfaceForms else {}) + SurfaceFormsOf(entities, k)
    decreases |entities|
  {
    if |entities| > 0 {
      var e := entities[0];
      var key := e.entityId.value;
      var stored := (if key in acc then MergeOrThrow(acc[key], e) else Success(e)).value;
      if key in acc {
        MergeFields(acc[key], e);
      }
      var acc' := acc[key := stored];
      GroupByEntityIdSurfaceForms(acc', entities[1..]);
      forall k
        ensures SurfaceFormsOf(entities, k)
             == (if k == key then e.surfaceForms else {}) + SurfaceFormsOf(entities[1..], k)
      {
        var rest := entities[1..];
        forall x | x in SurfaceFormsOf(entities, k)
          ensures x in (if k == key then e.surfaceForms else {}) + SurfaceFormsOf(rest, k)
        {
          var i :| 0 <= i < |entities| && entities[i].entityId == Some(k) && x in entities[i].surfaceForms;
          if i > 0 {
            assert rest[i - 1] == entities[i];
          }
        }
        forall x | x in SurfaceFormsOf(rest, k)
          ensures x in SurfaceFormsOf(entities, k)
        {
          var i :| 0 <= i < |rest| && rest[i].entityId == Some(k) && x in rest[i].surfaceForms;
          assert entities[i + 1] == rest[i];
        }
      }
    }
  }

  /** The entities loaded with the given id, in input order. */
  function WithId(entities: seq<ExternalEntity>, key: string): (r: seq<ExternalEntity>)
    ensures forall i :: 0 <= i < |r| ==> r[i].entityId == Some(key)
    ensures |r| > 0 <==> key in EntityIds(entities)
    decreases |entities|
  {
    if |entities| == 0 then []
    else
      var rest := WithId(entities[1..], key);
      assert EntityIds(entities) == EntityIdsOfCons(entities);
      (if entities[0].entityId == Some(key) then [entities[0]] else []) + rest
  }

  /** The ids of a non-empty sequence: the head's, if any, and those of the tail. */
  ghost function EntityIdsOfCons(entities: seq<ExternalEntity>): set<string>
    requires |entities| > 0
  {
    (if entities[0].entityId.Some? then {entities[0].entityId.value} else {}) + EntityIds(entities[1..])
  }

  /** `reducing(mergeOrThrow)` over the entities of one id: a left fold starting from `first`. */
  function MergeAll(first: ExternalEntity, rest: seq<ExternalEntity>): Result<ExternalEntity>
    decreases |rest|
  {
    if |rest| == 0 then Success(first)
    else
      var merged :- MergeOrThrow(first, rest[0]);
      MergeAll(merged, rest[1..])
  }

  /** The singular fields, which a merge takes from the first entity that has them. */
  datatype SingularField = EntityIdField | DisplayNameField | DescriptionField | TagField | ClaimValueField

  function SingularValue(e: ExternalEntity, f: SingularField): Option<string>
  {
    match f
    case EntityIdField => e.entityId
    case DisplayNameField => e.displayName
    case DescriptionField => e.description
    case TagField => e.tag
    case ClaimValueField => e.claimValue
  }

  /** The first non-null value of a singular field, in order. */
  function FirstOf(es: seq<ExternalEntity>, f: SingularField): (r: Option<string>)
    ensures r.Some? <==> exists i :: 0 <= i < |es| && SingularValue(es[i], f).Some?
    ensures r.Some? ==> exists i :: 0 <= i < |es| && SingularValue(es[i], f) == r
                                    && forall j :: 0 <= j < i ==> SingularValue(es[j], f).None?
    decreases |es|
  {
    if |es| == 0 then None
    else if SingularValue(es[0], f).Some? then SingularValue(es[0], f)
    else
      var r := FirstOf(es[1..], f);
      assert forall i :: 0 < i < |es| ==> es[i] == es[1..][i - 1];
      r
  }

  function UnionOfTypeIds(es: seq<ExternalEntity>): set<string>
    decreases |es|
  {
    if |es| == 0 then {} else es[0].entityTypeIds + UnionOfTypeIds(es[1..])
  }

  function UnionOfSurfaceForms(es: seq<ExternalEntity>): set<string>
    decreases |es|
  {
    if |es| == 0 then {} else es[0].surfaceForms + UnionOfSurfaceForms(es[1..])
  }

  /** The members of the group entities among `es`. */
  function UnionOfMembers(es: seq<ExternalEntity>): set<ConditionTemplateValues.CandidateValue>
    decreases |es|
  {
    if |es| == 0 then {}
    else (if es[0].variant.Group? then es[0].variant.members else {}) + UnionOfMembers(es[1..])
  }

  /** The present externalEntityIds of the discovered entities among `es`. */
  function UnionOfExternalIds(es: seq<ExternalEntity>): set<string>
    decreases |es|
  {
    if |es| == 0 then {}
    else
      (if es[0].variant.Discovered? && es[0].variant.externalEntityIds.Some?
       then es[0].variant.externalEntityIds.value else {})
      + UnionOfExternalIds(es[1..])
  }

  /** One merge step folded into the field summaries of the remaining entities. */
  lemma MergeStepFields(first: ExternalEntity, next: ExternalEntity, rest: seq<ExternalEntity>)
    requires MergeOrThrow(first, next).Success?
    ensures var m := MergeOrThrow(first, next).value;
      var es, ms := [first, next] + rest, [m] + rest;
      && (forall f :: FirstOf(ms, f) == FirstOf(es, f))
      && UnionOfTypeIds(ms) == UnionOfTypeIds(es)
      && UnionOfSurfaceForms(ms) == UnionOfSurfaceForms(es)
      && (first.variant.Group? ==> UnionOfMembers(ms) == UnionOfMembers(es))
      && (first.variant.Discovered? ==> UnionOfExternalIds(ms) == UnionOfExternalIds(es))
      && m.Type() == first.Type() == next.Type()
  {
    var m := MergeOrThrow(first, next).value;
    MergeFields(first, next);
    var es, ms := [first, next] + rest, [m] + rest;
    assert es[1..] == [next] + rest && es[1..][1..] == rest && ms[1..] == rest;
    forall f
      ensures FirstOf(ms, f) == FirstOf(es, f)
    {
      match f
      case EntityIdField =>
      case DisplayNameField =>
      case DescriptionField =>
      case TagField =>
      case ClaimValueField =>
    }
  }

  /**
   * The fold over the entities of one id: each singular field is the first
   * non-null one in order, the set fields are unions, and the class is kept.
   */
  lemma {:induction false} MergeAllFields(first: ExternalEntity, rest: seq<ExternalEntity>)
    requires MergeAll(first, rest).Success?
    ensures var m, es := MergeAll(first, rest).value, [first] + rest;
      && (|rest| == 0 ==> m == first)
      && (|rest| > 0 ==> m.id == None)
      && (forall f :: SingularValue(m, f) == FirstOf(es, f))
      && m.entityTypeIds == UnionOfTypeIds(es)
      && m.surfaceForms == UnionOfSurfaceForms(es)
      && m.Type() == first.Type()
      && (forall i :: 0 <= i < |rest| ==> rest[i].Type() == first.Type())
      && (first.variant.Group? ==> m.variant == Group(UnionOfMembers(es)))
      && (first.variant.Discovered? && |rest| > 0 ==> m.variant == Discovered(Some(UnionOfExternalIds(es))))
    decreases |rest|
  {
    var es := [first] + rest;
    assert es[1..] == rest;
    if |rest| == 0 {
      forall f
        ensures SingularValue(first, f) == FirstOf(es, f)
      {
      }
    } else {
      var merged := MergeOrThrow(first, rest[0]).value;
      var tail := rest[1..];
      assert rest == [rest[0]] + tail;
      assert es == [first, rest[0]] + tail;
      MergeStepFields(first, rest[0], tail);
      MergeFields(first, rest[0]);
      MergeAllFields(merged, tail);
      assert forall i :: 0 < i < |rest| ==> rest[i] == tail[i - 1];
      if |tail| == 0 {
        assert [merged] + tail == [merged];
        if first.variant.Group? {
          assert UnionOfMembers([merged]) == merged.variant.members + {} by {
            assert [merged][1..] == [];
          }
        }
        if first.variant.Discovered? {
          assert UnionOfExternalIds([merged]) == merged.variant.externalEntityIds.value by {
            assert [merged][1..] == [];
          }
        }
      }
    }
  }

  /**
   * The grouping fold stores under each id the left fold of `mergeOrThrow`
   * over the entities with that id, in input order, starting from the entity
   * already stored under it.
   */
  lemma {:induction false} GroupByEntityIdIsMergeAll(acc: map<string, ExternalEntity>, entities: seq<ExternalEntity>)
    requires GroupByEntityId(acc, entities).Success?
    ensures var m := GroupByEntityId(acc, entities).value;
      forall k :: k in m ==>
        var es := WithId(entities, k);
        && (k in acc ==> MergeAll(acc[k], es) == Success(m[k]))
        && (k !in acc ==> |es| > 0 && MergeAll(es[0], es[1..]) == Success(m[k]))
    decreases |entities|
  {
    if |entities| > 0 {
      var e := entities[0];
      var key := e.entityId.value;
      var stored := (if key in acc then MergeOrThrow(acc[key], e) else Success(e)).value;
      var acc', rest := acc[key := stored], entities[1..];
      GroupByEntityIdIsMergeAll(acc', rest);
      var m := GroupByEntityId(acc, entities).value;
      assert m == GroupByEntityId(acc', rest).value;
      forall k | k in m
        ensures var es := WithId(entities, k);
          && (k in acc ==> MergeAll(acc[k], es) == Success(m[k]))
          && (k !in acc ==> |es| > 0 && MergeAll(es[0], es[1..]) == Success(m[k]))
      {
        var es, es' := WithId(entities, k), WithId(rest, k);
        if k == key {
          assert es == [e] + es';
          assert es[1..] == es';
        } else {
          assert es == es';
        }
      }
    }
  }

  /** Folding over a concatenation folds over the first part, then over the second from its map. */
  lemma {:induction false} GroupByEntityIdAppend(acc: map<string, ExternalEntity>, a: seq<ExternalEntity>,
                                                 b: seq<ExternalEntity>)
    ensures GroupByEntityId(acc, a + b) ==
      match GroupByEntityId(acc, a)
      case Failure(err) => Failure(err)
      case Success(m) => GroupByEntityId(m, b)
    decreases |a|
  {
    if |a| == 0 {
      assert a + b == b;
    } else {
      assert (a + b)[0] == a[0] && (a + b)[1..] == a[1..] + b;
      var e := a[0];
      if e.entityId.Some? {
        var key := e.entityId.value;
        var step := if key in acc then MergeOrThrow(acc[key], e) else Success(e);
        if step.Success? {
          GroupByEntityIdAppend(acc[key := step.value], a[1..], b);
        }
      }
    }
  }

  /**
   * What a loaded entity holds: for an id loaded from the entities `es`
   * (in input order), the first non-null value of each singular field, the
   * union of the type ids, surface forms and group members, the union of
   * the externalEntityIds once two or more are merged, and the class of the
   * first entity; a lone entity is stored unchanged.
   */
  lemma GroupedEntityFields(entities: seq<ExternalEntity>, k: string)
    requires GroupByEntityId(map[], entities).Success?
    requires k in GroupByEntityId(map[], entities).value
    ensures var m, es := GroupByEntityId(map[], entities).value[k], WithId(entities, k);
      && |es| > 0
      && (|es| == 1 ==> m == es[0])
      && (|es| > 1 ==> m.id == None)
      && (forall f :: SingularValue(m, f) == FirstOf(es, f))
      && m.entityTypeIds == UnionOfTypeIds(es)
      && m.surfaceForms == UnionOfSurfaceForms(es)
      && (forall i :: 0 <= i < |es| ==> es[i].Type() == m.Type())
      && (m.variant.Group? ==> m.variant.members == UnionOfMembers(es))
      && (m.variant.Discovered? && |es| > 1 ==> m.variant.externalEntityIds == Some(UnionOfExternalIds(es)))
  {
    GroupByEntityIdIsMergeAll(map[], entities);
    var es := WithId(entities, k);
    MergeAllFields(es[0], es[1..]);
    assert [es[0]] + es[1..] == es;
  }

  /** The loaded repository holds, under each id, the merge of every entity loaded with that id. */
  lemma LoadMergesDuplicates(entities: seq<ExternalEntity>, k: string)
    requires Load(entities).Success? && k in Load(entities).value.entityIdToEntity
    ensures var m, es := Load(entities).value.entityIdToEntity[k], WithId(entities, k);
      && |es| > 0
      && MergeAll(es[0], es[1..]) == Success(m)
      && (forall f :: SingularValue(m, f) == FirstOf(es, f))
      && m.entityTypeIds == UnionOfTypeIds(es)
      && m.surfaceForms == UnionOfSurfaceForms(es)
      && (m.variant.Group? ==> m.variant.members == UnionOfMembers(es))
  {
    GroupByEntityIdIsMergeAll(map[], entities);
    GroupedEntityFields(entities, k);
  }

  /**
   * Two rows for one id, one naming the entity and one describing it, load
   * as one entity with both, its surface forms and type ids unioned.
   */
  lemma LoadMergesTwoRows()
    ensures var name := NewEntity(Some("e1"), {"t1"}, Some("Aspirin"), {"aspirin"}, None, None, None, Individual);
      var described := NewEntity(Some("e1"), {"t2"}, None, {"asa"}, Some("a drug"), None, None, Individual);
      Load([name, described]) == Success(Repository(map["e1" :=
        NewEntity(Some("e1"), {"t1", "t2"}, Some("Aspirin"), {"aspirin", "asa"}, Some("a drug"), None, None, Individual)]))
  {
    var name := NewEntity(Some("e1"), {"t1"}, Some("Aspirin"), {"aspirin"}, None, None, None, Individual);
    var described := NewEntity(Some("e1"), {"t2"}, None, {"asa"}, Some("a drug"), None, None, Individual);
    var both := NewEntity(Some("e1"), {"t1", "t2"}, Some("Aspirin"), {"aspirin", "asa"}, Some("a drug"), None, None,
                          Individual);
    assert {"t1"} + {"t2"} == {"t1", "t2"};
    assert {"aspirin"} + {"asa"} == {"aspirin", "asa"};
    assert Merge(name, Some(described)) == Success(both);
    assert [name, described][1..] == [described];
    assert GroupByEntityId(map[], [name, described]) == GroupByEntityId(map["e1" := name], [described]);
    assert map["e1" := name]["e1" := both] == map["e1" := both];
  }

  /** The repository can be loaded: ids present, and each entity mergeable with all earlier ones of its id. */
  ghost predicate Compatible(acc: map<string, ExternalEntity>, entities: seq<ExternalEntity>)
  {
    (forall i :: 0 <= i < |entities| ==> entities[i].entityId.Some?)
    && (forall i :: 0 <= i < |entities| && entities[i].entityId.Some? && entities[i].entityId.value in acc ==>
          CanBeMerged(acc[entities[i].entityId.value], Some(entities[i])))
    && (forall i, j :: 0 <= j < i < |entities| && entities[j].entityId == entities[i].entityId ==>
          CanBeMerged(entities[j], Some(entities[i])))
  }

  lemma MergeKeepsSets(a: ExternalEntity, b: ExternalEntity)
    requires HasSets(a) && HasSets(b) && Merge(a, Some(b)).Success?
    ensures HasSets(Merge(a, Some(b)).value)
  {
  }

  /**
   * Loading succeeds exactly when no entityId is null and duplicates are
   * pairwise mergeable (for entities whose id sets are present).
   */
  lemma {:induction false} GroupByEntityIdSucceeds(acc: map<string, ExternalEntity>, entities: seq<ExternalEntity>)
    requires forall k :: k in acc ==> HasSets(acc[k])
    requires forall i :: 0 <= i < |entities| ==> HasSets(entities[i])
    ensures GroupByEntityId(acc, entities).Success? <==> Compatible(acc, entities)
    decreases |entities|
  {
    if |entities| > 0 {
      var e := entities[0];
      var rest := entities[1..];
      if e.entityId.Some? {
        var key := e.entityId.value;
        var step := if key in acc then MergeOrThrow(acc[key], e) else Success(e);
        if key in acc {
          MergeSucceeds(acc[key], e);
        }
        if step.Success? {
          var acc' := acc[key := step.value];
          if key in acc {
            MergeKeepsSets(acc[key], e);
          }
          GroupByEntityIdSucceeds(acc', rest);
          // The merged entity is compatible with a later one iff both its parts are.
          forall i | 0 <= i < |rest| && rest[i].entityId == Some(key)
            ensures CanBeMerged(acc'[key], Some(rest[i]))
                <==> (key in acc ==> CanBeMerged(acc[key], Some(rest[i]))) && CanBeMerged(e, Some(rest[i]))
          {
            if key in acc {
              MergedCanBeMerged(acc[key], e, rest[i]);
            }
          }
          if Compatible(acc, entities) {
            forall i | 0 <= i < |rest| && rest[i].entityId.Some? && rest[i].entityId.value in acc'
              ensures CanBeMerged(acc'[rest[i].entityId.value], Some(rest[i]))
            {
              assert entities[i + 1] == rest[i];
            }
            forall i, j | 0 <= j < i < |rest| && rest[j].entityId == rest[i].entityId
              ensures CanBeMerged(rest[j], Some(rest[i]))
            {
              assert entities[j + 1] == rest[j] && entities[i + 1] == rest[i];
            }
            assert Compatible(acc', rest);
          }
          if Compatible(acc', rest) {
            forall i | 0 <= i < |entities| && entities[i].entityId.Some? && entities[i].entityId.value in acc
              ensures CanBeMerged(acc[entities[i].entityId.value], Some(entities[i]))
            {
              if i > 0 {
                assert rest[i - 1] == entities[i];
              }
            }
            forall i, j | 0 <= j < i < |entities| && entities[j].entityId == entities[i].entityId
              ensures CanBeMerged(entities[j], Some(entities[i]))
            {
              assert rest[i - 1] == entities[i];
              if j > 0 {
                assert rest[j - 1] == entities[j];
              }
            }
          }
        } else {
          assert !Compatible(acc, entities);
        }
      }
    }
  }

  /** findAll: every stored value. */
  function FindAll(repo: Repository): (r: set<ExternalEntity>)
    ensures forall e :: e in r <==> exists k :: k in repo.entityIdToEntity && repo.entityIdToEntity[k] == e
  {
    repo.entityIdToEntity.Values
  }

  /** findByType: the stored values of one type. */
  function FindByType(repo: Repository, t: EntityType): (r: set<ExternalEntity>)
    ensures r <= FindAll(repo)
    ensures forall e :: e in r ==> e.Type() == t
    ensures forall e :: e in FindAll(repo) && e.Type() == t ==> e in r
  {
    set e | e in repo.entityIdToEntity.Values && e.Type() == t
  }

  /** The three types partition the stored entities. */
  lemma FindByTypePartitions(repo: Repository)
    ensures FindAll(repo) == FindByType(repo, DISCOVERED) + FindByType(repo, GROUP) + FindByType(repo, INDIVIDUAL)
    ensures FindByType(repo, DISCOVERED) !! FindByType(repo, GROUP)
    ensures FindByType(repo, GROUP) !! FindByType(repo, INDIVIDUAL)
    ensures FindByType(repo, DISCOVERED) !! FindByType(repo, INDIVIDUAL)
  {
  }

  /** findByEntityId: the mapped entity; an unknown id is an illegal argument. */
  function FindByEntityId(repo: Repository, entityId: string): (r: Result<ExternalEntity>)
    ensures entityId !in repo.entityIdToEntity <==> r == Failure(IllegalArgument)
    ensures r.Success? ==> r.value in FindAll(repo)
  {
    if entityId in repo.entityIdToEntity then Success(repo.entityIdToEntity[entityId]) else Failure(IllegalArgument)
  }

  /** In a loaded repository, looking up an id yields an entity with that id, for exactly the ids loaded. */
  lemma FindByEntityIdAfterLoad(entities: seq<ExternalEntity>, entityId: string)
    requires Load(entities).Success?
    ensures FindByEntityId(Load(entities).value, entityId).Success? <==> entityId in EntityIds(entities)
    ensures FindByEntityId(Load(entities).value, entityId).Success? ==>
              FindByEntityId(Load(entities).value, entityId).value.entityId == Some(entityId)
  {
    GroupByEntityIdKeys(map[], entities);
  }
}
