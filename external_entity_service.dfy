/**
 * Group additions: building GROUP entities out of individual procedure-code
 * entities that are already stored, either from a JSON configuration
 * (single codes and code ranges) or from a CSV file with one group per row.
 * The repository is the file-backed one; its entities are keyed by id.
 */
module ExternalEntityService {
  import opened Wrappers
  import opened JavaStrings
  import opened ExternalEntities
  import CTV = ConditionTemplateValues
  import Repo = ExternalEntityFilesRepository
  import Models
  import CollectionsUtils

  /** GROUP_CSV_HEADERS: the exact header row of a group CSV file. */
  const GroupCsvHeaders: seq<string> := ["description", "displayName", "entityId", "members", "namespace", "tag", "typesId"]

  datatype GroupAdditionItemType = SINGLE_CODE | RANGE

  /** A proposed member: one code, or a range from the begin code to the end code. A null type is `None`. */
  datatype GroupAdditionItem = GroupAdditionItem(
    itemType: Option<GroupAdditionItemType>,
    beginCode: string,
    endCode: string)

  /** The group to add; the proposed members in the order they are visited. */
  datatype GroupAdditionConfig = GroupAdditionConfig(
    typesId: set<string>,
    displayName: Option<string>,
    description: Option<string>,
    entityId: Option<string>,
    tag: Option<string>,
    namespace: Option<string>,
    proposedMembers: seq<GroupAdditionItem>)

  /** The new group together with the individuals it was built from. */
  datatype GroupAdditionAll = GroupAdditionAll(
    groupAdditionEntry: ExternalEntity,
    individualExternalEntities: seq<ExternalEntity>)

  /** What a valid range stands for: the shared letter before or after the number, and the numeric bounds. */
  datatype RangeBounds = RangeBounds(prefix: string, postfix: string, start: int, end: int)

  /** The last validation step of getRange: the start number must be below the end number. */
  function CheckOrder(bounds: RangeBounds): (r: Result<RangeBounds>)
    ensures r.Success? <==> bounds.start < bounds.end
    ensures r.Success? ==> r.value == bounds
    ensures r.Failure? ==> r.error == IllegalArgument
  {
    if bounds.start >= bounds.end then Failure(IllegalArgument) else Success(bounds)
  }

  /**
   * The validation half of getRange. A code starting with a letter shares
   * that letter with the end code; otherwise a code ending with a letter
   * must agree with the end code on everything before that letter;
   * otherwise both codes are plain numbers.
   */
  function GetRangeBounds(startCode: string, endCode: string): (r: Result<RangeBounds>)
    ensures |startCode| == 0 ==> r == Failure(IndexOutOfBounds)
    ensures |startCode| > 0 && |endCode| > 0 && IsLetter(startCode[0]) && startCode[0] != endCode[0] ==>
              r == Failure(IllegalArgument)
    ensures r.Failure? ==> r.error == IndexOutOfBounds || r.error == IllegalArgument || r.error == NumberFormat
    ensures r.Success? ==> MinInt <= r.value.start < r.value.end <= MaxInt
    ensures r.Success? ==> |startCode| > 0 && (IsLetter(startCode[0]) <==> r.value.prefix != "")
    ensures r.Success? && r.value.prefix != "" ==>
              |endCode| > 0 && r.value.prefix == [startCode[0]] && endCode[0] == startCode[0] && r.value.postfix == ""
    ensures r.Success? && !IsLetter(startCode[0]) && !IsLetter(startCode[|startCode| - 1]) ==>
              r.value.prefix == "" && r.value.postfix == ""
  {
    if |startCode| == 0 then Failure(IndexOutOfBounds)
    else if IsLetter(startCode[0]) then
      if |endCode| == 0 then Failure(IndexOutOfBounds)
      else if startCode[..1] != endCode[..1] then Failure(IllegalArgument)
      else ParseBounds(startCode[..1], "", startCode[1..], endCode[1..])
    else if IsLetter(startCode[|startCode| - 1]) then
      if |endCode| == 0 then Failure(IndexOutOfBounds)
      else if startCode[..|startCode| - 1] != endCode[..|endCode| - 1] then Failure(IllegalArgument)
      else ParseBounds("", startCode[|startCode| - 1..], startCode[..|startCode| - 1], endCode[..|endCode| - 1])
    else ParseBounds("", "", startCode, endCode)
  }

  /** The numbers of both codes, parsed in order, then the order check. */
  function ParseBounds(prefix: string, postfix: string, startNumber: string, endNumber: string): (r: Result<RangeBounds>)
    ensures r.Success? <==> ParseInt(startNumber).Success? && ParseInt(endNumber).Success? &&
                            ParseInt(startNumber).value < ParseInt(endNumber).value
    ensures r.Success? ==> r.value == RangeBounds(prefix, postfix, ParseInt(startNumber).value, ParseInt(endNumber).value)
    ensures r.Failure? ==> r.error == NumberFormat || r.error == IllegalArgument
  {
    var start :- ParseInt(startNumber);
    var end :- ParseInt(endNumber);
    CheckOrder(RangeBounds(prefix, postfix, start, end))
  }

  /**
   * A code ending (and not starting) with a letter never makes a valid
   * range: the parts before the letter must be equal, so the two numbers
   * are equal and the order check rejects them.
   */
  lemma TrailingLetterRangeAlwaysFails(startCode: string, endCode: string)
    requires |startCode| > 0 && !IsLetter(startCode[0]) && IsLetter(startCode[|startCode| - 1])
    ensures GetRangeBounds(startCode, endCode).Failure?
  {
    if |endCode| > 0 && startCode[..|startCode| - 1] == endCode[..|endCode| - 1] {
      assert ParseInt(startCode[..|startCode| - 1]) == ParseInt(endCode[..|endCode| - 1]);
    }
  }

  /** "100A" to "200A" is refused although both codes end with the same letter. */
  lemma TrailingLetterRangeExample()
    ensures GetRangeBounds("100A", "200A").Failure?
  {
    var s := "100A";
    assert !IsLetter(s[0]) && IsLetter(s[|s| - 1]);
    TrailingLetterRangeAlwaysFails(s, "200A");
  }

  /** The range check as the comment above getRange describes it: a trailing letter is compared as a letter. */
  function GetRangeBoundsCorrected(startCode: string, endCode: string): (r: Result<RangeBounds>)
    ensures r.Success? ==> MinInt <= r.value.start < r.value.end <= MaxInt
  {
    if |startCode| == 0 then Failure(IndexOutOfBounds)
    else if IsLetter(startCode[0]) then GetRangeBounds(startCode, endCode)
    else if IsLetter(startCode[|startCode| - 1]) then
      if |endCode| == 0 then Failure(IndexOutOfBounds)
      else if startCode[|startCode| - 1..] != endCode[|endCode| - 1..] then Failure(IllegalArgument)
      else ParseBounds("", startCode[|startCode| - 1..], startCode[..|startCode| - 1], endCode[..|endCode| - 1])
    else GetRangeBounds(startCode, endCode)
  }

  /** With the correction, digits followed by a shared letter make a valid range when the numbers ascend. */
  lemma CorrectedAcceptsTrailingLetterRange(startDigits: string, endDigits: string, letter: char)
    requires IsNumeric(startDigits) && IsNumeric(endDigits) && IsLetter(letter)
    requires DigitsValue(startDigits) < DigitsValue(endDigits) <= MaxInt
    ensures GetRangeBoundsCorrected(startDigits + [letter], endDigits + [letter])
              == Success(RangeBounds("", [letter], DigitsValue(startDigits), DigitsValue(endDigits)))
  {
    var s := startDigits + [letter];
    var e := endDigits + [letter];
    assert s[0] == startDigits[0] && !IsLetter(s[0]);
    assert s[..|s| - 1] == startDigits && e[..|e| - 1] == endDigits;
    assert s[|s| - 1..] == [letter] == e[|e| - 1..];
  }

  /**
   * The part of a claim value that is compared with the range: everything
   * after a prefix letter, or everything before a postfix letter; for a
   * purely numeric range it stays empty.
   */
  function NumericPart(claimValue: string, prefix: string, postfix: string): (r: Result<string>)
    ensures r.Failure? <==> (prefix != "" || postfix != "") && claimValue == ""
    ensures r.Failure? ==> r.error == IndexOutOfBounds
    ensures r.Success? ==> |r.value| < |claimValue| || r.value == ""
    ensures r.Success? && prefix != "" ==> r.value == claimValue[1..]
    ensures prefix == "" && postfix == "" ==> r == Success("")
  {
    if prefix != "" then
      if |claimValue| == 0 then Failure(IndexOutOfBounds) else Success(claimValue[1..])
    else if postfix != "" then
      if |claimValue| == 0 then Failure(IndexOutOfBounds) else Success(claimValue[..|claimValue| - 1])
    else Success("")
  }

  /**
   * isInRange: a claim value is in range when its numeric part is a number
   * between the bounds (inclusive) and it carries the range's letter.
   */
  function IsInRange(entity: ExternalEntity, prefix: string, postfix: string, start: int, end: int): (r: Result<bool>)
    ensures entity.claimValue.None? ==> r == Success(false)
    ensures prefix == "" && postfix == "" ==> r == Success(false)
    ensures r.Failure? ==> (r.error == IndexOutOfBounds && entity.claimValue == Some("")) || r.error == NumberFormat
  {
    match entity.claimValue
    case None => Success(false)
    case Some(claimValue) =>
      var numeric :- NumericPart(claimValue, prefix, postfix);
      if !IsNumeric(numeric) then Success(false)
      else
        var code :- ParseInt(numeric);
        Success((claimValue[..1] == prefix || claimValue[|claimValue| - 1..] == postfix) && start <= code <= end)
  }

  /**
   * For a leading-letter range an entity is in range exactly when its claim
   * value is that letter followed by digits whose value lies within the bounds.
   */
  lemma LeadingLetterMembership(entity: ExternalEntity, letter: char, start: int, end: int)
    requires end <= MaxInt
    ensures IsInRange(entity, [letter], "", start, end) == Success(true) <==>
              entity.claimValue.Some? && |entity.claimValue.value| > 1 && entity.claimValue.value[0] == letter &&
              IsNumeric(entity.claimValue.value[1..]) && start <= DigitsValue(entity.claimValue.value[1..]) <= end
  {
    if entity.claimValue.Some? && |entity.claimValue.value| > 1 {
      var cv := entity.claimValue.value;
      assert cv[..1] == [letter] <==> cv[0] == letter;
    }
  }

  /** A purely numeric range matches no entity, whatever its claim value. */
  lemma NumericRangeMatchesNothing(entity: ExternalEntity, start: int, end: int)
    ensures IsInRange(entity, "", "", start, end) == Success(false)
  {
  }

  /** An individual with claim value "150" is not in the numeric range 100 to 200. */
  lemma NumericRangeExample(entity: ExternalEntity)
    requires entity.claimValue == Some("150")
    ensures IsInRange(entity, "", "", 100, 200) == Success(false)
  {
    NumericRangeMatchesNothing(entity, 100, 200);
  }

  /** isInRange as intended for a range without letters: the whole claim value is the number. */
  function IsInRangeCorrected(entity: ExternalEntity, prefix: string, postfix: string, start: int, end: int): (r: Result<bool>)
    ensures prefix != "" || postfix != "" ==> r == IsInRange(entity, prefix, postfix, start, end)
  {
    if prefix != "" || postfix != "" then IsInRange(entity, prefix, postfix, start, end)
    else
      match entity.claimValue
      case None => Success(false)
      case Some(claimValue) =>
        if !IsNumeric(claimValue) then Success(false)
        else
          var code :- ParseInt(claimValue);
          Success(start <= code <= end)
  }

  /** With the correction, a numeric claim value is in a numeric range exactly when its value lies within the bounds. */
  lemma CorrectedNumericMembership(entity: ExternalEntity, start: int, end: int)
    requires end <= MaxInt
    requires entity.claimValue.Some? && IsNumeric(entity.claimValue.value)
    ensures IsInRangeCorrected(entity, "", "", start, end) == Success(true) <==>
              start <= DigitsValue(entity.claimValue.value) <= end
  {
  }

  /** The claim value "150" is in the numeric range 100 to 200 once corrected. */
  lemma CorrectedNumericRangeExample(entity: ExternalEntity)
    requires entity.claimValue == Some("150")
    ensures IsInRangeCorrected(entity, "", "", 100, 200) == Success(true)
  {
    var cv := "150";
    assert IsNumeric(cv) by {
      assert cv[0] == '1' && cv[1] == '5' && cv[2] == '0';
    }
    DigitsOf150();
    CorrectedNumericMembership(entity, 100, 200);
  }

  lemma DigitsOf150()
    ensures AllDigits("150") && DigitsValue("150") == 150
  {
    DigitsValueSnoc("", '1');
    assert "" + ['1'] == "1";
    DigitsValueSnoc("1", '5');
    assert "1" + ['5'] == "15";
    DigitsValueSnoc("15", '0');
    assert "15" + ['0'] == "150";
  }

  /**
   * getRange: the stored individuals whose claim value is in the validated
   * range. An exception from isInRange on any individual ends the search;
   * which one is reported when several fail depends on the hash set's
   * order, and the model reports IndexOutOfBounds before NumberFormat.
   */
  function GetRange(repo: Repo.Repository, startCode: string, endCode: string): (r: Result<set<ExternalEntity>>)
    ensures GetRangeBounds(startCode, endCode).Failure? ==> r == Failure(GetRangeBounds(startCode, endCode).error)
    ensures GetRangeBounds(startCode, endCode).Success? ==>
              var b := GetRangeBounds(startCode, endCode).value;
              (r.Failure? <==>
                 exists e :: e in Repo.FindByType(repo, INDIVIDUAL) && IsInRange(e, b.prefix, b.postfix, b.start, b.end).Failure?)
    ensures r.Success? ==>
              var b := GetRangeBounds(startCode, endCode).value;
              forall e :: e in r.value <==>
                e in Repo.FindByType(repo, INDIVIDUAL) && IsInRange(e, b.prefix, b.postfix, b.start, b.end) == Success(true)
  {
    var b :- GetRangeBounds(startCode, endCode);
    var individuals := Repo.FindByType(repo, INDIVIDUAL);
    if exists e :: e in individuals && IsInRange(e, b.prefix, b.postfix, b.start, b.end) == Failure(IndexOutOfBounds) then
      Failure(IndexOutOfBounds)
    else if exists e :: e in individuals && IsInRange(e, b.prefix, b.postfix, b.start, b.end).Failure? then
      Failure(NumberFormat)
    else
      Success(set e | e in individuals && IsInRange(e, b.prefix, b.postfix, b.start, b.end) == Success(true))
  }

  /** The error getRange reports is the error isInRange raised on some stored individual, or the validation error. */
  lemma GetRangeErrorHasACause(repo: Repo.Repository, startCode: string, endCode: string)
    requires GetRange(repo, startCode, endCode).Failure?
    requires GetRangeBounds(startCode, endCode).Success?
    ensures var b := GetRangeBounds(startCode, endCode).value;
            exists e :: e in Repo.FindByType(repo, INDIVIDUAL) &&
              IsInRange(e, b.prefix, b.postfix, b.start, b.end) == Failure(GetRange(repo, startCode, endCode).error)
  {
    var b := GetRangeBounds(startCode, endCode).value;
    var individuals := Repo.FindByType(repo, INDIVIDUAL);
    if !exists e :: e in individuals && IsInRange(e, b.prefix, b.postfix, b.start, b.end) == Failure(IndexOutOfBounds) {
      var e :| e in individuals && IsInRange(e, b.prefix, b.postfix, b.start, b.end).Failure?;
      assert IsInRange(e, b.prefix, b.postfix, b.start, b.end) == Failure(NumberFormat);
    }
  }

  /** Two purely numeric codes select no entity at all. */
  lemma NumericCodesSelectNothing(repo: Repo.Repository, startCode: string, endCode: string)
    requires |startCode| > 0 && !IsLetter(startCode[0]) && !IsLetter(startCode[|startCode| - 1])
    requires GetRangeBounds(startCode, endCode).Success?
    ensures GetRange(repo, startCode, endCode) == Success({})
  {
    var b := GetRangeBounds(startCode, endCode).value;
    assert b.prefix == "" && b.postfix == "";
    forall e | e in Repo.FindByType(repo, INDIVIDUAL)
      ensures IsInRange(e, b.prefix, b.postfix, b.start, b.end) == Success(false)
    {
      NumericRangeMatchesNothing(e, b.start, b.end);
    }
    assert GetRange(repo, startCode, endCode).Success?;
    assert GetRange(repo, startCode, endCode).value == {};
  }

  /** rangeEntities: getRange on the trimmed, upper-cased codes, keeping the individuals. */
  function RangeEntities(repo: Repo.Repository, beginCode: string, endCode: string): (r: Result<set<ExternalEntity>>)
    ensures r.Success? ==> forall e :: e in r.value ==> e in Repo.FindAll(repo) && e.Type() == INDIVIDUAL
    ensures r.Failure? <==> GetRange(repo, Upper(Trim(beginCode)), Upper(Trim(endCode))).Failure?
  {
    var entities :- GetRange(repo, Upper(Trim(beginCode)), Upper(Trim(endCode)));
    Success(set e | e in entities && e.Type() == INDIVIDUAL)
  }

  lemma UpperOfLower(s: string)
    ensures Upper(Lower(s)) == Upper(s)
  {
  }

  /** Range codes are compared without regard to letter case. */
  lemma RangeEntitiesIgnoreCase(repo: Repo.Repository, beginCode: string, endCode: string)
    ensures RangeEntities(repo, Lower(beginCode), Lower(endCode)) == RangeEntities(repo, beginCode, endCode)
  {
    TrimOfLower(beginCode);
    TrimOfLower(endCode);
    UpperOfLower(Trim(beginCode));
    UpperOfLower(Trim(endCode));
  }

  /** The entity id of a procedure code: the namespace and the trimmed code, lower-cased. */
  function ProcedureCodeId(namespace: string, code: string): string
  {
    Lower(namespace) + "procedure_code_" + Lower(Trim(code))
  }

  /** getEntity: the stored individual of a procedure code; a missing id or a non-individual entity is an error. */
  function GetEntity(repo: Repo.Repository, namespace: string, code: string): (r: Result<ExternalEntity>)
    ensures var id := ProcedureCodeId(namespace, code);
            (r.Success? <==> id in repo.entityIdToEntity && repo.entityIdToEntity[id].Type() == INDIVIDUAL) &&
            (r.Success? ==> r.value == repo.entityIdToEntity[id]) &&
            (id !in repo.entityIdToEntity ==> r == Failure(IllegalArgument)) &&
            (r.Failure? && id in repo.entityIdToEntity ==> r == Failure(ClassCast))
  {
    var entity :- Repo.FindByEntityId(repo, ProcedureCodeId(namespace, code));
    if entity.Type() != INDIVIDUAL then Failure(ClassCast) else Success(entity)
  }

  /** Looking a code up does not depend on the case of the namespace or on the case and padding of the code. */
  lemma GetEntityIgnoresCaseAndPadding(repo: Repo.Repository, namespace: string, code: string)
    ensures GetEntity(repo, Lower(namespace), Lower(Trim(code))) == GetEntity(repo, namespace, code)
  {
    LowerIdempotent(namespace);
    TrimOfLower(Trim(code));
    TrimIdempotent(code);
    LowerIdempotent(Trim(code));
  }

  /** cvFromGroupMember: a SINGLE candidate value with only an id. */
  function GroupMember(entityId: string): (r: CTV.CandidateValue)
    ensures r.id == Some(entityId) && r.labelText.None? && r.claimValue.None? && r.valueType == CTV.SINGLE
  {
    CTV.CandidateValue(Some(entityId), None, None, CTV.SINGLE)
  }

  /** Stored individuals of the repository. */
  ghost predicate StoredIndividuals(repo: Repo.Repository, entities: set<ExternalEntity>)
  {
    forall e :: e in entities ==> e in Repo.FindAll(repo) && e.Type() == INDIVIDUAL
  }

  /** The distinct elements of a list or bag. */
  function Distinct(entities: multiset<ExternalEntity>): (r: set<ExternalEntity>)
    ensures forall e :: e in r <==> e in entities
  {
    set e | e in entities
  }

  /** Every entity of a well-formed repository has an id, under which it is stored. */
  lemma StoredEntityHasId(repo: Repo.Repository, e: ExternalEntity)
    requires Repo.KeyedById(repo.entityIdToEntity)
    requires e in Repo.FindAll(repo)
    ensures e.entityId.Some? && e.entityId.value in repo.entityIdToEntity
    ensures repo.entityIdToEntity[e.entityId.value] == e
  {
    var k :| k in repo.entityIdToEntity && repo.entityIdToEntity[k] == e;
  }

  /** The members of a group built from these individuals: one candidate value per individual. */
  function MembersOf(repo: Repo.Repository, individuals: set<ExternalEntity>): (r: set<CTV.CandidateValue>)
    requires Repo.KeyedById(repo.entityIdToEntity)
    requires StoredIndividuals(repo, individuals)
    ensures forall m :: m in r ==> (m.valueType == CTV.SINGLE && m.labelText.None? && m.claimValue.None? &&
                                    m.id.Some? && m.id.value in repo.entityIdToEntity &&
                                    repo.entityIdToEntity[m.id.value] in individuals)
    ensures forall e :: e in individuals ==> GroupMember(e.entityId.value) in r
  {
    forall e | e in individuals
      ensures e.entityId.Some? && e.entityId.value in repo.entityIdToEntity && repo.entityIdToEntity[e.entityId.value] == e
    {
      StoredEntityHasId(repo, e);
    }
    set e | e in individuals :: GroupMember(e.entityId.value)
  }

  /** The surface forms of all the individuals together. */
  function SurfaceFormsOfAll(individuals: set<ExternalEntity>): (r: set<string>)
    ensures forall x :: x in r <==> exists e :: e in individuals && x in e.surfaceForms
  {
    set e, x | e in individuals && x in e.surfaceForms :: x
  }

  /**
   * The group's id: the configured one, or when it is empty the namespace
   * followed by the display name trimmed, lower-cased, with spaces turned
   * into underscores and other unusual characters too. A null id or
   * (when needed) a null display name is a NullPointerException.
   */
  function GroupName(config: GroupAdditionConfig, namespace: string): (r: Result<string>)
    ensures config.entityId.None? ==> r == Failure(NullPointer)
    ensures config.entityId.Some? && config.entityId.value != "" ==> r == Success(config.entityId.value)
    ensures r.Failure? ==> r.error == NullPointer
    ensures r.Success? && config.entityId == Some("") ==>
              |r.value| >= |namespace| && r.value[..|namespace|] == namespace &&
              forall i :: |namespace| <= i < |r.value| ==> r.value[i] != ' ' && (Models.IsKeptInName(r.value[i]) || r.value[i] == '_')
  {
    match config.entityId
    case None => Failure(NullPointer)
    case Some(entityId) =>
      if entityId != "" then Success(entityId)
      else
        match config.displayName
        case None => Failure(NullPointer)
        case Some(displayName) =>
          var name := Models.CleanIndividualName(Models.ToSnakeCase(displayName));
          assert forall i :: 0 <= i < |name| ==> name[i] != ' ';
          Success(namespace + name)
  }

  /** The group entity of a configuration, with the given individuals as members. */
  function GroupEntityOf(repo: Repo.Repository, config: GroupAdditionConfig, namespace: string, individuals: set<ExternalEntity>)
    : (r: Result<ExternalEntity>)
    requires Repo.KeyedById(repo.entityIdToEntity)
    requires StoredIndividuals(repo, individuals)
    ensures r.Success? ==> r.value.Type() == GROUP && r.value.id.None? && r.value.claimValue.None?
    ensures r.Success? ==> r.value.variant.members == MembersOf(repo, individuals)
    ensures r.Success? ==> r.value.surfaceForms == SurfaceFormsOfAll(individuals)
    ensures r.Success? ==> r.value.entityTypeIds == config.typesId && r.value.displayName == config.displayName
    ensures r.Success? ==> r.value.description == config.description && r.value.tag == config.tag
    ensures r.Success? <==> GroupName(config, namespace).Success?
    ensures r.Success? ==> r.value.entityId == Some(GroupName(config, namespace).value)
  {
    var name :- GroupName(config, namespace);
    Success(NewEntity(Some(name), config.typesId, config.displayName, SurfaceFormsOfAll(individuals),
                      config.description, config.tag, None, Group(MembersOf(repo, individuals))))
  }

  /** The individuals one proposed member adds; an item without a type adds none. */
  function ItemEntities(repo: Repo.Repository, namespace: string, item: GroupAdditionItem): (r: Result<multiset<ExternalEntity>>)
    ensures r.Success? ==> StoredIndividuals(repo, Distinct(r.value))
    ensures item.itemType == Some(SINGLE_CODE) ==>
              (r.Success? <==> GetEntity(repo, namespace, item.beginCode).Success?) &&
              (r.Success? ==> r.value == multiset{GetEntity(repo, namespace, item.beginCode).value})
    ensures item.itemType == Some(RANGE) ==> (r.Failure? <==> RangeEntities(repo, item.beginCode, item.endCode).Failure?)
    ensures item.itemType.None? ==> r == Success(multiset{})
  {
    match item.itemType
    case None => Success(multiset{})
    case Some(SINGLE_CODE) =>
      var entity :- GetEntity(repo, namespace, item.beginCode);
      Success(multiset{entity})
    case Some(RANGE) =>
      var entities :- RangeEntities(repo, item.beginCode, item.endCode);
      Success(multiset(entities))
  }

  /** The proposed members visited in order after the individuals `acc` already collected; the first error ends the visit. */
  function ProposedFrom(repo: Repo.Repository, namespace: string, acc: multiset<ExternalEntity>, items: seq<GroupAdditionItem>)
    : (r: Result<multiset<ExternalEntity>>)
    decreases |items|
  {
    if |items| == 0 then Success(acc)
    else
      var added :- ItemEntities(repo, namespace, items[0]);
      ProposedFrom(repo, namespace, acc + added, items[1..])
  }

  /** Collecting keeps what was collected and adds only stored individuals. */
  lemma {:induction false} ProposedFromIndividuals(repo: Repo.Repository, namespace: string, acc: multiset<ExternalEntity>,
                                                   items: seq<GroupAdditionItem>)
    requires ProposedFrom(repo, namespace, acc, items).Success?
    ensures acc <= ProposedFrom(repo, namespace, acc, items).value
    ensures StoredIndividuals(repo, Distinct(acc)) ==> StoredIndividuals(repo, Distinct(ProposedFrom(repo, namespace, acc, items).value))
    decreases |items|
  {
    if |items| > 0 {
      var added := ItemEntities(repo, namespace, items[0]).value;
      ProposedFromIndividuals(repo, namespace, acc + added, items[1..]);
    }
  }

  /** Collecting fails exactly when some proposed member fails, with the error of the first one that does. */
  lemma ProposedFromFailure(repo: Repo.Repository, namespace: string, acc: multiset<ExternalEntity>,
                            items: seq<GroupAdditionItem>)
    ensures ProposedFrom(repo, namespace, acc, items).Failure? <==>
              exists i :: 0 <= i < |items| && ItemEntities(repo, namespace, items[i]).Failure?
    ensures ProposedFrom(repo, namespace, acc, items).Failure? ==>
              exists i :: 0 <= i < |items| &&
                ItemEntities(repo, namespace, items[i]) == Failure(ProposedFrom(repo, namespace, acc, items).error) &&
                forall j :: 0 <= j < i ==> ItemEntities(repo, namespace, items[j]).Success?
  {
    ProposedFromFirstError(repo, namespace, acc, items);
    ProposedFromFailsOnItem(repo, namespace, acc, items);
  }

  /** A failed collection reports the error of the first proposed member that fails. */
  lemma {:induction false} ProposedFromFirstError(repo: Repo.Repository, namespace: string, acc: multiset<ExternalEntity>,
                                                  items: seq<GroupAdditionItem>)
    ensures ProposedFrom(repo, namespace, acc, items).Failure? ==>
              exists i :: 0 <= i < |items| &&
                ItemEntities(repo, namespace, items[i]) == Failure(ProposedFrom(repo, namespace, acc, items).error) &&
                forall j :: 0 <= j < i ==> ItemEntities(repo, namespace, items[j]).Success?
    decreases |items|
  {
    if |items| > 0 {
      var first := ItemEntities(repo, namespace, items[0]);
      if first.Success? {
        ProposedFromFirstError(repo, namespace, acc + first.value, items[1..]);
        if ProposedFrom(repo, namespace, acc, items).Failure? {
          var e := ProposedFrom(repo, namespace, acc, items).error;
          var i :| 0 <= i < |items[1..]| && ItemEntities(repo, namespace, items[1..][i]) == Failure(e) &&
                   forall j :: 0 <= j < i ==> ItemEntities(repo, namespace, items[1..][j]).Success?;
          CollectionsUtils.FirstFailureOfTail(item => ItemEntities(repo, namespace, item), items, i, e);
        }
      } else {
        assert ProposedFrom(repo, namespace, acc, items) == Failure(first.error);
        assert ItemEntities(repo, namespace, items[0]) == Failure(first.error);
      }
    }
  }

  /** A proposed member that fails makes the whole collection fail. */
  lemma {:induction false} ProposedFromFailsOnItem(repo: Repo.Repository, namespace: string, acc: multiset<ExternalEntity>,
                                                   items: seq<GroupAdditionItem>)
    ensures (exists i :: 0 <= i < |items| && ItemEntities(repo, namespace, items[i]).Failure?) ==>
              ProposedFrom(repo, namespace, acc, items).Failure?
    decreases |items|
  {
    if |items| > 0 {
      var first := ItemEntities(repo, namespace, items[0]);
      if first.Success? {
        ProposedFromFailsOnItem(repo, namespace, acc + first.value, items[1..]);
        forall i | 1 <= i < |items|
          ensures items[i] == items[1..][i - 1]
        {
        }
      }
    }
  }

  /**
   * processGroupAddition without its list order: a null namespace is an
   * illegal argument, otherwise the collected individuals (with repeats)
   * and the group built from them.
   */
  function GroupAdditionOf(repo: Repo.Repository, config: GroupAdditionConfig): (r: Result<(ExternalEntity, multiset<ExternalEntity>)>)
    requires Repo.KeyedById(repo.entityIdToEntity)
  {
    if config.namespace.None? then Failure(IllegalArgument)
    else
      var namespace := config.namespace.value;
      var individuals :- ProposedFrom(repo, namespace, multiset{}, config.proposedMembers);
      ProposedFromIndividuals(repo, namespace, multiset{}, config.proposedMembers);
      var group :- GroupEntityOf(repo, config, namespace, Distinct(individuals));
      Success((group, individuals))
  }

  /**
   * A successful group addition yields a GROUP entity whose members are
   * exactly the candidate values of the collected individuals, all of them
   * stored individuals, and whose surface forms are theirs together.
   */
  lemma GroupAdditionMembers(repo: Repo.Repository, config: GroupAdditionConfig)
    requires Repo.KeyedById(repo.entityIdToEntity)
    requires GroupAdditionOf(repo, config).Success?
    ensures var (group, individuals) := GroupAdditionOf(repo, config).value;
            group.Type() == GROUP && group.variant.Group? &&
            StoredIndividuals(repo, Distinct(individuals)) &&
            (forall m :: m in group.variant.members <==> exists e :: e in individuals && m == GroupMember(e.entityId.value)) &&
            (forall x :: x in group.surfaceForms <==> exists e :: e in individuals && x in e.surfaceForms)
  {
    var namespace := config.namespace.value;
    ProposedFromIndividuals(repo, namespace, multiset{}, config.proposedMembers);
  }

  /** A proposed single code that is not stored makes the whole addition fail. */
  lemma MissingSingleCodeFails(repo: Repo.Repository, config: GroupAdditionConfig, i: nat)
    requires Repo.KeyedById(repo.entityIdToEntity)
    requires config.namespace.Some? && i < |config.proposedMembers|
    requires config.proposedMembers[i].itemType == Some(SINGLE_CODE)
    requires ProcedureCodeId(config.namespace.value, config.proposedMembers[i].beginCode) !in repo.entityIdToEntity
    ensures GroupAdditionOf(repo, config).Failure?
  {
    ProposedFromFailure(repo, config.namespace.value, multiset{}, config.proposedMembers);
  }

  /**
   * processGroupAddition: visits the proposed members in order, appending
   * each single code's individual and every individual of each range to
   * the list, then builds the group.
   */
  method ProcessGroupAddition(repo: Repo.Repository, config: GroupAdditionConfig) returns (r: Result<GroupAdditionAll>)
    requires Repo.KeyedById(repo.entityIdToEntity)
    ensures r.Failure? <==> GroupAdditionOf(repo, config).Failure?
    ensures r.Failure? ==> r.error == GroupAdditionOf(repo, config).error
    ensures r.Success? ==> r.value.groupAdditionEntry == GroupAdditionOf(repo, config).value.0
    ensures r.Success? ==> multiset(r.value.individualExternalEntities) == GroupAdditionOf(repo, config).value.1
  {
    if config.namespace.None? {
      return Failure(IllegalArgument);
    }
    var namespace := config.namespace.value;
    var items := config.proposedMembers;
    var individuals: seq<ExternalEntity> := [];
    var i := 0;
    while i < |items|
      invariant 0 <= i <= |items|
      invariant ProposedFrom(repo, namespace, multiset(individuals), items[i..]) ==
                ProposedFrom(repo, namespace, multiset{}, items)
    {
      assert items[i..][0] == items[i] && items[i..][1..] == items[i + 1..];
      var next := AddItem(repo, namespace, individuals, items[i]);
      if next.Failure? {
        return Failure(next.error);
      }
      individuals := next.value;
      i := i + 1;
    }
    ProposedFromIndividuals(repo, namespace, multiset{}, items);
    var collected := ProposedFrom(repo, namespace, multiset{}, items).value;
    assert collected == multiset(individuals);
    assert Distinct(collected) == set e | e in individuals;
    var group := GroupEntityOf(repo, config, namespace, set e | e in individuals);
    if group.Failure? {
      return Failure(group.error);
    }
    return Success(GroupAdditionAll(group.value, individuals));
  }

  /** One proposed member: its individuals appended to the list, or the error it raises. */
  method AddItem(repo: Repo.Repository, namespace: string, individuals: seq<ExternalEntity>, item: GroupAdditionItem)
    returns (r: Result<seq<ExternalEntity>>)
    ensures r.Failure? <==> ItemEntities(repo, namespace, item).Failure?
    ensures r.Failure? ==> r.error == ItemEntities(repo, namespace, item).error
    ensures r.Success? ==> multiset(r.value) == multiset(individuals) + ItemEntities(repo, namespace, item).value
  {
    match item.itemType {
      case None =>
        r := Success(individuals);
      case Some(SINGLE_CODE) =>
        var entity := GetEntity(repo, namespace, item.beginCode);
        if entity.Failure? {
          return Failure(entity.error);
        }
        assert multiset(individuals + [entity.value]) == multiset(individuals) + multiset{entity.value};
        r := Success(individuals + [entity.value]);
      case Some(RANGE) =>
        var range := RangeEntities(repo, item.beginCode, item.endCode);
        if range.Failure? {
          return Failure(range.error);
        }
        var appended := AppendAll(individuals, range.value);
        r := Success(appended);
    }
  }

  /** addAll of a set to a list: every element once, in some order. */
  method AppendAll(list: seq<ExternalEntity>, entities: set<ExternalEntity>) returns (r: seq<ExternalEntity>)
    ensures multiset(r) == multiset(list) + multiset(entities)
    ensures |r| >= |list| && r[..|list|] == list
  {
    r := list;
    var rest := entities;
    while rest != {}
      invariant rest <= entities
      invariant multiset(r) == multiset(list) + multiset(entities - rest)
      invariant |r| >= |list| && r[..|list|] == list
      decreases |rest|
    {
      var e :| e in rest;
      assert entities - (rest - {e}) == (entities - rest) + {e};
      assert e !in entities - rest;
      r := r + [e];
      rest := rest - {e};
    }
    assert entities - rest == entities;
  }

  /** The member codes of a CSV cell: brackets dropped, "]" acting as a separator, split at commas. */
  function MemberEntries(cell: string): (r: seq<string>)
  {
    Split(Replace(Replace(cell, "[", ""), "]", ","), ",")
  }

  /** A cell without brackets, commas or dashes holds a single code. */
  lemma MemberEntriesOfSingleCode(cell: string)
    requires '[' !in cell && ']' !in cell && ',' !in cell
    ensures MemberEntries(cell) == [cell]
  {
    ReplaceAbsent(cell, "[", 0, "");
    ReplaceAbsent(cell, "]", 0, ",");
    AbsentCharNoOccurrence(cell, ",", 0);
  }

  /** The individuals one member code of a CSV row stands for: a code, or "begin-end" as a range. */
  function EntryEntities(repo: Repo.Repository, namespace: string, entry: string): (r: Result<set<ExternalEntity>>)
    ensures r.Success? ==> StoredIndividuals(repo, r.value)
    ensures '-' !in entry ==> (r.Success? <==> GetEntity(repo, namespace, entry).Success?)
    ensures '-' !in entry && r.Success? ==> r.value == {GetEntity(repo, namespace, entry).value}
    ensures '-' in entry && |Split(entry, "-")| < 2 ==> r == Failure(IndexOutOfBounds)
  {
    if '-' !in entry then
      var entity :- GetEntity(repo, namespace, entry);
      Success({entity})
    else
      var range := Split(entry, "-");
      if |range| < 2 then Failure(IndexOutOfBounds)
      else RangeEntities(repo, range[0], range[1])
  }

  /** The individuals of all member codes of a row, visited in order; the first error ends the visit. */
  function CollectEntries(repo: Repo.Repository, namespace: string, entries: seq<string>): (r: Result<set<ExternalEntity>>)
    ensures r.Success? ==> StoredIndividuals(repo, r.value)
    decreases |entries|
  {
    if |entries| == 0 then Success({})
    else
      var first :- EntryEntities(repo, namespace, entries[0]);
      var rest :- CollectEntries(repo, namespace, entries[1..]);
      Success(first + rest)
  }

  /** A successful visit needs every entry to succeed and holds the individuals of each. */
  lemma CollectEntriesCovers(repo: Repo.Repository, namespace: string, entries: seq<string>)
    requires CollectEntries(repo, namespace, entries).Success?
    ensures forall i :: 0 <= i < |entries| ==>
      EntryEntities(repo, namespace, entries[i]).Success?
      && EntryEntities(repo, namespace, entries[i]).value <= CollectEntries(repo, namespace, entries).value
  {
    CollectEntriesWithin(repo, namespace, entries, CollectEntries(repo, namespace, entries).value);
  }

  /** The individuals of each entry of a successful visit lie in any bound on the visit. */
  lemma {:induction false} CollectEntriesWithin(repo: Repo.Repository, namespace: string, entries: seq<string>,
                                                bound: set<ExternalEntity>)
    requires CollectEntries(repo, namespace, entries).Success? && CollectEntries(repo, namespace, entries).value <= bound
    ensures forall i :: 0 <= i < |entries| ==>
      EntryEntities(repo, namespace, entries[i]).Success? && EntryEntities(repo, namespace, entries[i]).value <= bound
    decreases |entries|
  {
    if |entries| > 0 {
      assert CollectEntries(repo, namespace, entries).value
          == EntryEntities(repo, namespace, entries[0]).value + CollectEntries(repo, namespace, entries[1..]).value;
      CollectEntriesWithin(repo, namespace, entries[1..], bound);
      CollectionsUtils.AllCons(e => EntryEntities(repo, namespace, e).Success? && EntryEntities(repo, namespace, e).value <= bound,
                               entries);
    }
  }

  /**
   * groupFromCSVLine: a GROUP entity from the seven cells description,
   * displayName, entityId, members, namespace, tag and typesId.
   */
  function GroupFromCsvLine(repo: Repo.Repository, line: seq<string>): (r: Result<ExternalEntity>)
    requires Repo.KeyedById(repo.entityIdToEntity)
    ensures |line| < 7 ==> r == Failure(IndexOutOfBounds)
    ensures r.Success? ==> r.value.Type() == GROUP && r.value.variant.Group? && r.value.id.None? && r.value.claimValue.None?
    ensures r.Success? ==> (r.value.description == Some(line[0]) && r.value.displayName == Some(line[1]) &&
                            r.value.entityId == Some(line[2]) && r.value.tag == Some(line[5]) && r.value.entityTypeIds == {line[6]})
    ensures r.Success? ==> forall m :: m in r.value.variant.members ==>
              m.valueType == CTV.SINGLE && m.labelText.None? && m.claimValue.None? &&
              m.id.Some? && m.id.value in repo.entityIdToEntity && repo.entityIdToEntity[m.id.value].Type() == INDIVIDUAL
  {
    if |line| < 7 then Failure(IndexOutOfBounds)
    else
      var individuals :- CollectEntries(repo, line[4], MemberEntries(line[3]));
      Success(NewEntity(Some(line[2]), {line[6]}, Some(line[1]), SurfaceFormsOfAll(individuals),
                        Some(line[0]), Some(line[5]), None, Group(MembersOf(repo, individuals))))
  }

  /** A row naming one stored individual's code makes a group with exactly that member. */
  lemma GroupFromCsvLineSingleCode(repo: Repo.Repository, line: seq<string>)
    requires Repo.KeyedById(repo.entityIdToEntity)
    requires |line| >= 7
    requires '[' !in line[3] && ']' !in line[3] && ',' !in line[3] && '-' !in line[3]
    requires GetEntity(repo, line[4], line[3]).Success?
    ensures GroupFromCsvLine(repo, line).Success?
    ensures GroupFromCsvLine(repo, line).value.variant.members == {GroupMember(ProcedureCodeId(line[4], line[3]))}
    ensures GroupFromCsvLine(repo, line).value.surfaceForms == GetEntity(repo, line[4], line[3]).value.surfaceForms
  {
    MemberEntriesOfSingleCode(line[3]);
    var entity := GetEntity(repo, line[4], line[3]).value;
    assert CollectEntries(repo, line[4], [line[3]]) == Success({entity}) by {
      assert [line[3]][1..] == [];
      assert EntryEntities(repo, line[4], line[3]) == Success({entity});
      assert CollectEntries(repo, line[4], []) == Success({});
      assert {entity} + {} == {entity};
    }
    StoredEntityHasId(repo, entity);
  }

  /** The rows after the header, in order, added to the groups `acc` already built; the first error ends the import. */
  function GroupsOfLines(repo: Repo.Repository, acc: set<ExternalEntity>, lines: seq<seq<string>>): (r: Result<set<ExternalEntity>>)
    requires Repo.KeyedById(repo.entityIdToEntity)
    decreases |lines|
  {
    if |lines| == 0 then Success(acc)
    else
      var group :- GroupFromCsvLine(repo, lines[0]);
      GroupsOfLines(repo, acc + {group}, lines[1..])
  }

  /** processGroupAdditionCSV without the reader: the header row must be exact, and every error is wrapped. */
  function ImportGroups(repo: Repo.Repository, rows: seq<seq<string>>): (r: Result<set<ExternalEntity>>)
    requires Repo.KeyedById(repo.entityIdToEntity)
    ensures r.Failure? ==> r.error.ParsingCsv?
    ensures |rows| == 0 || rows[0] != GroupCsvHeaders ==> r == Failure(ParsingCsv(IllegalArgument))
  {
    if |rows| == 0 || rows[0] != GroupCsvHeaders then Failure(ParsingCsv(IllegalArgument))
    else
      match GroupsOfLines(repo, {}, rows[1..])
      case Success(groups) => Success(groups)
      case Failure(e) => Failure(ParsingCsv(e))
  }

  /** The groups of the rows that make one. */
  ghost function LineGroups(repo: Repo.Repository, lines: seq<seq<string>>): set<ExternalEntity>
    requires Repo.KeyedById(repo.entityIdToEntity)
  {
    set i | 0 <= i < |lines| && GroupFromCsvLine(repo, lines[i]).Success? :: GroupFromCsvLine(repo, lines[i]).value
  }

  lemma LineGroupsCons(repo: Repo.Repository, lines: seq<seq<string>>)
    requires Repo.KeyedById(repo.entityIdToEntity)
    requires |lines| > 0 && GroupFromCsvLine(repo, lines[0]).Success?
    ensures LineGroups(repo, lines) == {GroupFromCsvLine(repo, lines[0]).value} + LineGroups(repo, lines[1..])
  {
    forall g | g in LineGroups(repo, lines)
      ensures g in {GroupFromCsvLine(repo, lines[0]).value} + LineGroups(repo, lines[1..])
    {
      var i :| 0 <= i < |lines| && GroupFromCsvLine(repo, lines[i]).Success? && GroupFromCsvLine(repo, lines[i]).value == g;
      if i > 0 {
        assert lines[i] == lines[1..][i - 1];
      }
    }
    forall g | g in LineGroups(repo, lines[1..])
      ensures g in LineGroups(repo, lines)
    {
      var i :| 0 <= i < |lines[1..]| && GroupFromCsvLine(repo, lines[1..][i]).Success? && GroupFromCsvLine(repo, lines[1..][i]).value == g;
      assert lines[1..][i] == lines[i + 1];
    }
  }

  /** A successful import needs every row to succeed. */
  lemma {:induction false} GroupsOfLinesEachLine(repo: Repo.Repository, acc: set<ExternalEntity>, lines: seq<seq<string>>)
    requires Repo.KeyedById(repo.entityIdToEntity)
    requires GroupsOfLines(repo, acc, lines).Success?
    ensures forall i :: 0 <= i < |lines| ==> GroupFromCsvLine(repo, lines[i]).Success?
    decreases |lines|
  {
    if |lines| > 0 {
      var first := GroupFromCsvLine(repo, lines[0]);
      assert first.Success?;
      GroupsOfLinesEachLine(repo, acc + {first.value}, lines[1..]);
      CollectionsUtils.AllCons(line => GroupFromCsvLine(repo, line).Success?, lines);
    }
  }

  /** The import keeps the groups already built and adds exactly the groups of the rows. */
  lemma {:induction false} GroupsOfLinesContents(repo: Repo.Repository, acc: set<ExternalEntity>, lines: seq<seq<string>>)
    requires Repo.KeyedById(repo.entityIdToEntity)
    requires GroupsOfLines(repo, acc, lines).Success?
    ensures GroupsOfLines(repo, acc, lines).value == acc + LineGroups(repo, lines)
    decreases |lines|
  {
    if |lines| > 0 {
      GroupsOfLinesContents(repo, acc + {GroupFromCsvLine(repo, lines[0]).value}, lines[1..]);
      LineGroupsCons(repo, lines);
    }
  }

  /** A successful import holds exactly the groups of the rows after the header, and needs every row to succeed. */
  lemma ImportGroupsContents(repo: Repo.Repository, rows: seq<seq<string>>)
    requires Repo.KeyedById(repo.entityIdToEntity)
    requires ImportGroups(repo, rows).Success?
    ensures |rows| > 0 && rows[0] == GroupCsvHeaders
    ensures forall i :: 1 <= i < |rows| ==> GroupFromCsvLine(repo, rows[i]).Success?
    ensures forall g :: g in ImportGroups(repo, rows).value <==>
              exists i :: 1 <= i < |rows| && GroupFromCsvLine(repo, rows[i]) == Success(g)
  {
    var lines := rows[1..];
    GroupsOfLinesEachLine(repo, {}, lines);
    GroupsOfLinesContents(repo, {}, lines);
    assert ImportGroups(repo, rows).value == LineGroups(repo, lines);
    forall i | 1 <= i < |rows|
      ensures GroupFromCsvLine(repo, rows[i]).Success?
    {
      assert rows[i] == lines[i - 1];
    }
    LineGroupsAfterHeader(repo, rows);
  }

  /** The groups of the rows after the header, counted from the header's index. */
  lemma LineGroupsAfterHeader(repo: Repo.Repository, rows: seq<seq<string>>)
    requires Repo.KeyedById(repo.entityIdToEntity)
    requires |rows| > 0
    ensures forall g :: g in LineGroups(repo, rows[1..]) <==>
              exists i :: 1 <= i < |rows| && GroupFromCsvLine(repo, rows[i]) == Success(g)
  {
    var lines := rows[1..];
    forall g
      ensures g in LineGroups(repo, lines) <==> exists i :: 1 <= i < |rows| && GroupFromCsvLine(repo, rows[i]) == Success(g)
    {
      if g in LineGroups(repo, lines) {
        var i :| 0 <= i < |lines| && GroupFromCsvLine(repo, lines[i]).Success? && GroupFromCsvLine(repo, lines[i]).value == g;
        assert GroupFromCsvLine(repo, rows[i + 1]) == Success(g);
      }
      if exists i :: 1 <= i < |rows| && GroupFromCsvLine(repo, rows[i]) == Success(g) {
        var i :| 1 <= i < |rows| && GroupFromCsvLine(repo, rows[i]) == Success(g);
        assert lines[i - 1] == rows[i];
      }
    }
  }

  /** processGroupAdditionCSV: checks the header row, then reads the rows one by one into a set of groups. */
  method ProcessGroupAdditionCsv(repo: Repo.Repository, rows: seq<seq<string>>) returns (r: Result<set<ExternalEntity>>)
    requires Repo.KeyedById(repo.entityIdToEntity)
    ensures r == ImportGroups(repo, rows)
  {
    if |rows| == 0 || rows[0] != GroupCsvHeaders {
      return Failure(ParsingCsv(IllegalArgument));
    }
    var groups: set<ExternalEntity> := {};
    var i := 1;
    while i < |rows|
      invariant 1 <= i <= |rows|
      invariant GroupsOfLines(repo, groups, rows[i..]) == GroupsOfLines(repo, {}, rows[1..])
    {
      assert rows[i..][0] == rows[i] && rows[i..][1..] == rows[i + 1..];
      var group := GroupFromCsvLine(repo, rows[i]);
      if group.Failure? {
        return Failure(ParsingCsv(group.error));
      }
      groups := groups + {group.value};
      i := i + 1;
    }
    return Success(groups);
  }
}
