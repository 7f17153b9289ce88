/**
 * The candidate-value repository: turns an individual of the ontology, or
 * an extracted external entity, into the candidate value a condition may
 * take. The ids of the GROUP external entities are read once, when the
 * repository is built.
 */
module CandidateValues {
  import opened Wrappers
  import opened ConditionTemplateValues
  import EE = ExternalEntities
  import Repo = ExternalEntityFilesRepository
  import opened Ontology
  import Rdf

  datatype CandidateValueRepository = CandidateValueRepository(
    domainOntology: DomainOntology,
    groupExternalEntitiesIds: set<Option<string>>)

  /** getAllGroupExternalEntitiesIds: the entity ids (null included) of the stored GROUP entities. */
  function GroupExternalEntitiesIds(repo: Repo.Repository): (r: set<Option<string>>)
    ensures forall id :: id in r <==> exists e :: e in Repo.FindByType(repo, EE.GROUP) && e.entityId == id
  {
    set e | e in Repo.FindByType(repo, EE.GROUP) :: e.entityId
  }

  /** The constructor. */
  function NewCandidateValueRepository(repo: Repo.Repository, o: DomainOntology): (r: CandidateValueRepository)
    ensures r.domainOntology == o
    ensures forall id :: Some(id) in r.groupExternalEntitiesIds <==>
      exists e :: e in Repo.FindAll(repo) && e.Type() == EE.GROUP && e.entityId == Some(id)
  {
    CandidateValueRepository(o, GroupExternalEntitiesIds(repo))
  }

  /** typeOf: GROUP exactly for the URIs of GROUP external entities, otherwise SINGLE. */
  function TypeOf(cvr: CandidateValueRepository, uri: string): (r: CandidateValueType)
    ensures r == GROUP <==> Some(uri) in cvr.groupExternalEntitiesIds
    ensures r != EXTRACTED
  {
    if Some(uri) in cvr.groupExternalEntitiesIds then GROUP else SINGLE
  }

  /** toCandidateValue of an individual. */
  function IndividualValue(cvr: CandidateValueRepository, uri: string): (r: CandidateValue)
    ensures r.id == Some(uri) && r.valueType != EXTRACTED
  {
    var o := cvr.domainOntology;
    CandidateValue(Some(uri), Some(LabelOf(o, uri)), ClaimValue(o, uri), TypeOf(cvr, uri))
  }

  /** findById(id): the individual with that URI as a candidate value, if the ontology has one. */
  function FindById(cvr: CandidateValueRepository, id: string): (r: Option<CandidateValue>)
    ensures r.Some? <==> id in cvr.domainOntology.individuals
    ensures r.Some? ==> r.value.id == Some(id)
  {
    if id in cvr.domainOntology.individuals then Some(IndividualValue(cvr, id)) else None
  }

  /** toCandidateValue of an extracted entity; only called on an entity whose id matched. */
  function ExtractedValue(e: EE.ExternalEntity): (r: CandidateValue)
    requires e.entityId.Some?
    ensures r.id == e.entityId && r.valueType == EXTRACTED
  {
    CandidateValue(e.entityId, e.displayName, e.claimValue, EXTRACTED)
  }

  /**
   * findInExtractedEntities: the first entity whose entityId equals the id.
   * An entity met before it with a null entityId throws a NullPointerException.
   */
  function FindInExtractedEntities(id: string, extracted: seq<EE.ExternalEntity>): (r: Result<Option<CandidateValue>>)
    ensures r.Failure? ==> r.error == NullPointer
    ensures r.Success? && r.value.Some? ==> r.value.value.valueType == EXTRACTED && r.value.value.id == Some(id)
  {
    if |extracted| == 0 then Success(None)
    else
      match extracted[0].entityId
      case None => Failure(NullPointer)
      case Some(entityId) =>
        if entityId == id then Success(Some(ExtractedValue(extracted[0])))
        else FindInExtractedEntities(id, extracted[1..])
  }

  /** findById(id, extractedEntities): the ontology first, then the extracted entities. */
  function FindByIdOrExtracted(cvr: CandidateValueRepository, id: string, extracted: seq<EE.ExternalEntity>): (r: Result<Option<CandidateValue>>)
    ensures r.Success? && r.value.Some? ==> r.value.value.id == Some(id)
  {
    var inOntology := FindById(cvr, id);
    if inOntology.Some? then Success(inOntology) else FindInExtractedEntities(id, extracted)
  }

  /** An individual's candidate value: its label is the display name, or else the local name. */
  lemma IndividualValueFields(cvr: CandidateValueRepository, uri: string)
    requires uri in cvr.domainOntology.individuals
    ensures var v := FindById(cvr, uri).value;
      && v.labelText == Some(if uri in cvr.domainOntology.displayNames then cvr.domainOntology.displayNames[uri]
                             else Rdf.LocalName(uri))
      && v.claimValue == (if uri in cvr.domainOntology.claimValues then Some(cvr.domainOntology.claimValues[uri]) else None)
      && (v.valueType == GROUP <==> Some(uri) in cvr.groupExternalEntitiesIds)
      && (v.valueType == SINGLE <==> Some(uri) !in cvr.groupExternalEntitiesIds)
  {
  }

  /** An ontology hit is returned whatever the extracted entities are. */
  lemma OntologyTakesPrecedence(cvr: CandidateValueRepository, id: string, extracted: seq<EE.ExternalEntity>)
    requires id in cvr.domainOntology.individuals
    ensures FindByIdOrExtracted(cvr, id, extracted) == Success(FindById(cvr, id))
    ensures FindByIdOrExtracted(cvr, id, extracted).value.value.valueType != EXTRACTED
  {
  }

  /** The first extracted entity with the id is the one returned, when no null id comes before it. */
  lemma {:induction false} FirstMatchingEntityFound(id: string, extracted: seq<EE.ExternalEntity>, i: nat)
    requires i < |extracted| && extracted[i].entityId == Some(id)
    requires forall j :: 0 <= j < i ==> extracted[j].entityId.Some? && extracted[j].entityId.value != id
    ensures FindInExtractedEntities(id, extracted) == Success(Some(ExtractedValue(extracted[i])))
    decreases i
  {
    if i > 0 {
      assert forall j :: 0 <= j < i - 1 ==> extracted[1..][j] == extracted[j + 1];
      FirstMatchingEntityFound(id, extracted[1..], i - 1);
    }
  }

  /** No entity with the id and no null id: nothing is found. */
  lemma {:induction false} NoMatchingEntity(id: string, extracted: seq<EE.ExternalEntity>)
    requires forall j :: 0 <= j < |extracted| ==> extracted[j].entityId.Some? && extracted[j].entityId.value != id
    ensures FindInExtractedEntities(id, extracted) == Success(None)
    decreases |extracted|
  {
    if |extracted| > 0 {
      assert forall j :: 0 <= j < |extracted| - 1 ==> extracted[1..][j] == extracted[j + 1];
      NoMatchingEntity(id, extracted[1..]);
    }
  }

  /** A URI unknown to the ontology falls back to the extracted entities, typed EXTRACTED. */
  lemma FallbackIsExtracted(cvr: CandidateValueRepository, id: string, extracted: seq<EE.ExternalEntity>)
    requires id !in cvr.domainOntology.individuals
    ensures FindByIdOrExtracted(cvr, id, extracted) == FindInExtractedEntities(id, extracted)
    ensures var r := FindByIdOrExtracted(cvr, id, extracted);
      r.Success? && r.value.Some? ==> r.value.value.valueType == EXTRACTED
  {
  }
}
