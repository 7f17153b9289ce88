/**
 * The condition-template repository: derives the condition templates of
 * the benefit-rule classes from the ontology. A leaf property becomes one
 * template; a property whose range has properties of its own contributes
 * the templates of its range class (of each operand, for a union range);
 * the unions a class belongs to contribute theirs.
 *
 * The derivation has no visited set. `fuel` is the stack depth left: a
 * nested derivation with none left is a stack overflow, which is what a
 * cycle through ranges or unions always ends in.
 */
module ConditionTemplates {
  import opened Wrappers
  import opened ConditionTemplateValues
  import opened CollectionsUtils
  import opened Ontology
  import opened CandidateValues
  import Rdf

  // ----------------------------------------------------------------------
  // Candidate values of a class.
  // ----------------------------------------------------------------------

  /** The candidate values of the instances the repository resolves; the others are dropped. */
  function InstanceValues(cvr: CandidateValueRepository, instances: seq<string>): (r: set<CandidateValue>)
    ensures forall v :: v in r <==> exists i :: i in instances && FindById(cvr, i) == Some(v)
  {
    set i | i in instances && FindById(cvr, i).Some? :: FindById(cvr, i).value
  }

  /** candidateValues: a union takes its operands' values; another class its instances' values. */
  function ClassCandidateValues(cvr: CandidateValueRepository, o: DomainOntology, c: string, fuel: nat): (r: Result<set<CandidateValue>>)
    ensures r.Failure? ==> r.error == StackOverflow
    decreases fuel, 0
  {
    if !IsUnionClass(o, c) then Success(InstanceValues(cvr, ClassOf(o, c).instances))
    else if fuel == 0 then Failure(StackOverflow)
    else UnionCandidateValues(cvr, o, ClassOperands(o, c), fuel - 1)
  }

  /** candidateValuesOfUnionClass: the union of the operands' values. */
  function UnionCandidateValues(cvr: CandidateValueRepository, o: DomainOntology, cs: seq<string>, fuel: nat): (r: Result<set<CandidateValue>>)
    ensures r.Failure? ==> r.error == StackOverflow
    decreases fuel, 1, |cs|
  {
    if |cs| == 0 then Success({})
    else
      var first :- ClassCandidateValues(cvr, o, cs[0], fuel);
      var rest :- UnionCandidateValues(cvr, o, cs[1..], fuel);
      Success(first + rest)
  }

  /** The values of a union are those of its operands, and it fails only if one of them does. */
  lemma {:induction false} UnionCandidateValuesContents(cvr: CandidateValueRepository, o: DomainOntology, cs: seq<string>, fuel: nat)
    ensures UnionCandidateValues(cvr, o, cs, fuel).Success? <==>
      forall i :: 0 <= i < |cs| ==> ClassCandidateValues(cvr, o, cs[i], fuel).Success?
    ensures UnionCandidateValues(cvr, o, cs, fuel).Success? ==>
      forall v :: v in UnionCandidateValues(cvr, o, cs, fuel).value <==>
        exists i :: 0 <= i < |cs| && v in ClassCandidateValues(cvr, o, cs[i], fuel).value
    decreases |cs|
  {
    if |cs| > 0 {
      UnionCandidateValuesContents(cvr, o, cs[1..], fuel);
      assert forall i :: 1 <= i < |cs| ==> cs[1..][i - 1] == cs[i];
    }
  }

  /** A class that is not a union offers exactly its resolved instances. */
  lemma PlainClassCandidateValues(cvr: CandidateValueRepository, o: DomainOntology, c: string, fuel: nat)
    requires !IsUnionClass(o, c)
    ensures ClassCandidateValues(cvr, o, c, fuel).Success?
    ensures forall v :: v in ClassCandidateValues(cvr, o, c, fuel).value <==>
      exists i :: i in ClassOf(o, c).instances && i in cvr.domainOntology.individuals && FindById(cvr, i) == Some(v)
  {
  }

  // ----------------------------------------------------------------------
  // One property as a template.
  // ----------------------------------------------------------------------

  /** rangeCandidateValues: none for a non-object property; else the values of its single range class. */
  function RangeCandidateValues(cvr: CandidateValueRepository, o: DomainOntology, p: string, fuel: nat): (r: Result<set<CandidateValue>>)
    ensures !PropertyOf(o, p).isObject ==> r == Success({})
    ensures PropertyOf(o, p).isObject && SingleRangeClass(o, p, true).None? ==> r == Failure(NoSuchElement)
  {
    if !PropertyOf(o, p).isObject then Success({})
    else
      match SingleRangeClass(o, p, true)
      case None => Failure(NoSuchElement)
      case Some(range) => ClassCandidateValues(cvr, o, range, fuel)
  }

  /**
   * toConditionTemplate: a datatype property is free text; an object
   * property is a single selection when functional and a multiple
   * selection otherwise; any other property is an illegal state.
   */
  function ToConditionTemplate(cvr: CandidateValueRepository, o: DomainOntology, p: string, fuel: nat): (r: Result<ConditionTemplate>)
    ensures r.Success? ==> r.value.id == p && r.value.displayName == LabelOf(o, p)
    ensures PropertyOf(o, p).isDatatype ==> r == Success(FreeText(p, LabelOf(o, p)))
    ensures !PropertyOf(o, p).isDatatype && !PropertyOf(o, p).isObject ==> r == Failure(IllegalState)
    ensures !PropertyOf(o, p).isDatatype && PropertyOf(o, p).isObject ==>
      && (r.Success? <==> RangeCandidateValues(cvr, o, p, fuel).Success?)
      && (r.Success? ==> !r.value.FreeText? && r.value.candidateValues == RangeCandidateValues(cvr, o, p, fuel).value)
      && (r.Success? ==> (r.value.SingleSelection? <==> PropertyOf(o, p).isFunctional))
  {
    var d := PropertyOf(o, p);
    if d.isDatatype then Success(FreeText(p, LabelOf(o, p)))
    else if d.isObject && d.isFunctional then
      var values :- RangeCandidateValues(cvr, o, p, fuel);
      Success(SingleSelection(p, LabelOf(o, p), values))
    else if d.isObject && !d.isFunctional then
      var values :- RangeCandidateValues(cvr, o, p, fuel);
      Success(MultipleSelection(p, LabelOf(o, p), values))
    else Failure(IllegalState)
  }

  // ----------------------------------------------------------------------
  // The derivation.
  // ----------------------------------------------------------------------

  /** getAllClassUnionsWith: the union classes of the model that list the class as an operand. */
  function UnionsWith(o: DomainOntology, c: string): seq<string>
  {
    Filter(u => IsUnionClass(o, u) && c in Operands(o, u), o.classList)
  }

  /** The unions with a class are the listed union classes having it among their operands. */
  lemma UnionsWithMembers(o: DomainOntology, c: string)
    ensures forall u :: u in UnionsWith(o, c) <==> u in o.classList && IsUnionClass(o, u) && c in Operands(o, u)
  {
    FilterMembers(u => IsUnionClass(o, u) && c in Operands(o, u), o.classList);
  }

  /** getConditionTemplates(rootClass): the unions' templates, then each declared property's. */
  function ClassTemplates(cvr: CandidateValueRepository, o: DomainOntology, c: string, fuel: nat): (r: Result<set<ConditionTemplate>>)
    decreases fuel, 0
  {
    if fuel == 0 then Failure(StackOverflow)
    else
      var fromUnions :- TemplatesOfAll(cvr, o, UnionsWith(o, c), fuel - 1);
      PropertyTemplates(cvr, o, DeclaredProperties(o, c), fromUnions, fuel - 1)
  }

  /** getConditionTemplates(rootClasses), and the streams over unions and union operands: the union of each class's templates. */
  function TemplatesOfAll(cvr: CandidateValueRepository, o: DomainOntology, cs: seq<string>, fuel: nat): (r: Result<set<ConditionTemplate>>)
    decreases fuel, 1, |cs|
  {
    if |cs| == 0 then Success({})
    else
      var first :- ClassTemplates(cvr, o, cs[0], fuel);
      var rest :- TemplatesOfAll(cvr, o, cs[1..], fuel);
      Success(first + rest)
  }

  /**
   * The body of the loop over the declared properties: a leaf property
   * adds its template; another adds the templates of its single range
   * class, or of each class operand when that range is a union.
   */
  function PropertyContribution(cvr: CandidateValueRepository, o: DomainOntology, p: string, fuel: nat): (r: Result<set<ConditionTemplate>>)
    decreases fuel, 2
  {
    var leaf :- IsLeafProperty(o, p, fuel);
    if leaf then
      var t :- ToConditionTemplate(cvr, o, p, fuel);
      Success({t})
    else
      match SingleRangeClass(o, p, true)
      case None => Failure(NoSuchElement)
      case Some(range) =>
        if IsUnionClass(o, range) then TemplatesOfAll(cvr, o, ClassOperands(o, range), fuel)
        else ClassTemplates(cvr, o, range, fuel)
  }

  /** The loop over the declared properties, adding each contribution to `acc`. */
  function PropertyTemplates(cvr: CandidateValueRepository, o: DomainOntology, ps: seq<string>, acc: set<ConditionTemplate>, fuel: nat): (r: Result<set<ConditionTemplate>>)
    decreases fuel, 3, |ps|
  {
    if |ps| == 0 then Success(acc)
    else
      var ts :- PropertyContribution(cvr, o, ps[0], fuel);
      PropertyTemplates(cvr, o, ps[1..], acc + ts, fuel)
  }

  /** findAll: the templates derived from every benefit-rule class, computed when the repository is built. */
  function FindAll(cvr: CandidateValueRepository, o: DomainOntology, fuel: nat): Result<set<ConditionTemplate>>
  {
    TemplatesOfAll(cvr, o, o.benefitRuleClasses, fuel)
  }

  /** A union of derivations fails only if the derivation of one of its classes does. */
  lemma {:induction false} TemplatesOfAllSucceeds(cvr: CandidateValueRepository, o: DomainOntology, cs: seq<string>, fuel: nat)
    ensures TemplatesOfAll(cvr, o, cs, fuel).Success? <==>
      forall i :: 0 <= i < |cs| ==> ClassTemplates(cvr, o, cs[i], fuel).Success?
    decreases |cs|
  {
    if |cs| > 0 {
      TemplatesOfAllSucceeds(cvr, o, cs[1..], fuel);
      assert forall i :: 1 <= i < |cs| ==> cs[1..][i - 1] == cs[i];
    }
  }

  /** A successful union of derivations holds exactly the templates of its classes. */
  lemma {:induction false} TemplatesOfAllContents(cvr: CandidateValueRepository, o: DomainOntology, cs: seq<string>, fuel: nat)
    requires TemplatesOfAll(cvr, o, cs, fuel).Success?
    ensures forall t :: t in TemplatesOfAll(cvr, o, cs, fuel).value <==>
      exists i :: 0 <= i < |cs| && ClassTemplates(cvr, o, cs[i], fuel).Success? && t in ClassTemplates(cvr, o, cs[i], fuel).value
    decreases |cs|
  {
    if |cs| > 0 {
      TemplatesOfAllContents(cvr, o, cs[1..], fuel);
      assert forall i :: 1 <= i < |cs| ==> cs[1..][i - 1] == cs[i];
    }
  }

  /** The templates of each class are part of a successful union of derivations. */
  lemma {:induction false} ClassTemplatesAt(cvr: CandidateValueRepository, o: DomainOntology, cs: seq<string>, fuel: nat, i: nat)
    requires TemplatesOfAll(cvr, o, cs, fuel).Success? && i < |cs|
    ensures ClassTemplates(cvr, o, cs[i], fuel).Success?
    ensures ClassTemplates(cvr, o, cs[i], fuel).value <= TemplatesOfAll(cvr, o, cs, fuel).value
    decreases i
  {
    if i > 0 {
      ClassTemplatesAt(cvr, o, cs[1..], fuel, i - 1);
    }
  }

  /** The property loop fails only if the contribution of one property does. */
  lemma {:induction false} PropertyTemplatesSucceeds(cvr: CandidateValueRepository, o: DomainOntology, ps: seq<string>,
                                                     acc: set<ConditionTemplate>, fuel: nat)
    ensures PropertyTemplates(cvr, o, ps, acc, fuel).Success? <==>
      forall i :: 0 <= i < |ps| ==> PropertyContribution(cvr, o, ps[i], fuel).Success?
    decreases |ps|
  {
    if |ps| > 0 && PropertyContribution(cvr, o, ps[0], fuel).Success? {
      PropertyTemplatesSucceeds(cvr, o, ps[1..], acc + PropertyContribution(cvr, o, ps[0], fuel).value, fuel);
      assert forall i :: 1 <= i < |ps| ==> ps[1..][i - 1] == ps[i];
    }
  }

  /** A successful property loop keeps `acc` and adds exactly the contributions. */
  lemma {:induction false} PropertyTemplatesContents(cvr: CandidateValueRepository, o: DomainOntology, ps: seq<string>,
                                                     acc: set<ConditionTemplate>, fuel: nat)
    requires PropertyTemplates(cvr, o, ps, acc, fuel).Success?
    ensures forall t :: t in PropertyTemplates(cvr, o, ps, acc, fuel).value <==>
      t in acc || exists i :: 0 <= i < |ps| && PropertyContribution(cvr, o, ps[i], fuel).Success?
                              && t in PropertyContribution(cvr, o, ps[i], fuel).value
    decreases |ps|
  {
    if |ps| > 0 {
      PropertyTemplatesContents(cvr, o, ps[1..], acc + PropertyContribution(cvr, o, ps[0], fuel).value, fuel);
      assert forall i :: 1 <= i < |ps| ==> ps[1..][i - 1] == ps[i];
    }
  }

  /** A successful property loop keeps what it started from. */
  lemma {:induction false} AccumulatedKept(cvr: CandidateValueRepository, o: DomainOntology, ps: seq<string>,
                                           acc: set<ConditionTemplate>, fuel: nat)
    requires PropertyTemplates(cvr, o, ps, acc, fuel).Success?
    ensures acc <= PropertyTemplates(cvr, o, ps, acc, fuel).value
    decreases |ps|
  {
    if |ps| > 0 {
      AccumulatedKept(cvr, o, ps[1..], acc + PropertyContribution(cvr, o, ps[0], fuel).value, fuel);
    }
  }

  /** The contribution of each property is part of a successful property loop. */
  lemma {:induction false} ContributionAt(cvr: CandidateValueRepository, o: DomainOntology, ps: seq<string>,
                                          acc: set<ConditionTemplate>, fuel: nat, i: nat)
    requires PropertyTemplates(cvr, o, ps, acc, fuel).Success? && i < |ps|
    ensures PropertyContribution(cvr, o, ps[i], fuel).Success?
    ensures PropertyContribution(cvr, o, ps[i], fuel).value <= PropertyTemplates(cvr, o, ps, acc, fuel).value
    decreases i
  {
    if i == 0 {
      AccumulatedKept(cvr, o, ps[1..], acc + PropertyContribution(cvr, o, ps[0], fuel).value, fuel);
    } else {
      ContributionAt(cvr, o, ps[1..], acc + PropertyContribution(cvr, o, ps[0], fuel).value, fuel, i - 1);
    }
  }

  /** findAll holds the templates of each benefit-rule class and nothing else. */
  lemma FindAllIsUnion(cvr: CandidateValueRepository, o: DomainOntology, fuel: nat)
    requires FindAll(cvr, o, fuel).Success?
    ensures forall i :: 0 <= i < |o.benefitRuleClasses| ==>
      ClassTemplates(cvr, o, o.benefitRuleClasses[i], fuel).Success?
      && ClassTemplates(cvr, o, o.benefitRuleClasses[i], fuel).value <= FindAll(cvr, o, fuel).value
    ensures forall t :: t in FindAll(cvr, o, fuel).value <==>
      exists i :: 0 <= i < |o.benefitRuleClasses| && ClassTemplates(cvr, o, o.benefitRuleClasses[i], fuel).Success?
                  && t in ClassTemplates(cvr, o, o.benefitRuleClasses[i], fuel).value
  {
    TemplatesOfAllContents(cvr, o, o.benefitRuleClasses, fuel);
    forall i | 0 <= i < |o.benefitRuleClasses|
      ensures ClassTemplates(cvr, o, o.benefitRuleClasses[i], fuel).Success?
      ensures ClassTemplates(cvr, o, o.benefitRuleClasses[i], fuel).value <= FindAll(cvr, o, fuel).value
    {
      ClassTemplatesAt(cvr, o, o.benefitRuleClasses, fuel, i);
    }
  }

  /** A successful derivation had stack left, derived its unions, then ran the property loop from their templates. */
  lemma ClassTemplatesSteps(cvr: CandidateValueRepository, o: DomainOntology, c: string, fuel: nat)
    returns (fromUnions: set<ConditionTemplate>)
    requires ClassTemplates(cvr, o, c, fuel).Success?
    ensures fuel > 0 && TemplatesOfAll(cvr, o, UnionsWith(o, c), fuel - 1) == Success(fromUnions)
    ensures ClassTemplates(cvr, o, c, fuel) == PropertyTemplates(cvr, o, DeclaredProperties(o, c), fromUnions, fuel - 1)
  {
    fromUnions := TemplatesOfAll(cvr, o, UnionsWith(o, c), fuel - 1).value;
  }

  /** A successful derivation includes the templates of every union the class is an operand of. */
  lemma UnionTemplatesIncluded(cvr: CandidateValueRepository, o: DomainOntology, c: string, i: nat, fuel: nat)
    requires ClassTemplates(cvr, o, c, fuel).Success? && i < |UnionsWith(o, c)|
    ensures fuel > 0 && ClassTemplates(cvr, o, UnionsWith(o, c)[i], fuel - 1).Success?
    ensures ClassTemplates(cvr, o, UnionsWith(o, c)[i], fuel - 1).value <= ClassTemplates(cvr, o, c, fuel).value
  {
    UnionsKept(cvr, o, c, fuel);
    ClassTemplatesAt(cvr, o, UnionsWith(o, c), fuel - 1, i);
  }

  /** The templates gathered from the unions are kept by the property loop. */
  lemma UnionsKept(cvr: CandidateValueRepository, o: DomainOntology, c: string, fuel: nat)
    requires ClassTemplates(cvr, o, c, fuel).Success?
    ensures fuel > 0 && TemplatesOfAll(cvr, o, UnionsWith(o, c), fuel - 1).Success?
    ensures TemplatesOfAll(cvr, o, UnionsWith(o, c), fuel - 1).value <= ClassTemplates(cvr, o, c, fuel).value
  {
    var fromUnions := ClassTemplatesSteps(cvr, o, c, fuel);
    AccumulatedKept(cvr, o, DeclaredProperties(o, c), fromUnions, fuel - 1);
  }

  /** The contribution of each declared property is part of a successful derivation. */
  lemma ContributionIncluded(cvr: CandidateValueRepository, o: DomainOntology, c: string, i: nat, fuel: nat)
    requires ClassTemplates(cvr, o, c, fuel).Success? && i < |DeclaredProperties(o, c)|
    ensures fuel > 0 && PropertyContribution(cvr, o, DeclaredProperties(o, c)[i], fuel - 1).Success?
    ensures PropertyContribution(cvr, o, DeclaredProperties(o, c)[i], fuel - 1).value <= ClassTemplates(cvr, o, c, fuel).value
  {
    var fromUnions := ClassTemplatesSteps(cvr, o, c, fuel);
    ContributionAt(cvr, o, DeclaredProperties(o, c), fromUnions, fuel - 1, i);
  }

  /** A declared leaf property's template is in a successful derivation. */
  lemma LeafPropertyTemplateIncluded(cvr: CandidateValueRepository, o: DomainOntology, c: string, i: nat, fuel: nat)
    requires ClassTemplates(cvr, o, c, fuel).Success? && fuel > 0 && i < |DeclaredProperties(o, c)|
    requires IsLeafProperty(o, DeclaredProperties(o, c)[i], fuel - 1) == Success(true)
    ensures ToConditionTemplate(cvr, o, DeclaredProperties(o, c)[i], fuel - 1).Success?
    ensures ToConditionTemplate(cvr, o, DeclaredProperties(o, c)[i], fuel - 1).value in ClassTemplates(cvr, o, c, fuel).value
  {
    ContributionIncluded(cvr, o, c, i, fuel);
  }

  /** The contribution of a non-leaf property: its single range's templates, or its operands' for a union range. */
  lemma NonLeafContribution(cvr: CandidateValueRepository, o: DomainOntology, p: string, fuel: nat)
    requires IsLeafProperty(o, p, fuel) == Success(false)
    ensures SingleRangeClass(o, p, true).None? ==> PropertyContribution(cvr, o, p, fuel) == Failure(NoSuchElement)
    ensures SingleRangeClass(o, p, true).Some? && IsUnionClass(o, SingleRangeClass(o, p, true).value) ==>
      PropertyContribution(cvr, o, p, fuel) == TemplatesOfAll(cvr, o, ClassOperands(o, SingleRangeClass(o, p, true).value), fuel)
    ensures SingleRangeClass(o, p, true).Some? && !IsUnionClass(o, SingleRangeClass(o, p, true).value) ==>
      PropertyContribution(cvr, o, p, fuel) == ClassTemplates(cvr, o, SingleRangeClass(o, p, true).value, fuel)
  {
  }

  /**
   * A declared non-leaf property has a range class, and when that range is
   * not a union its templates are in a successful derivation.
   */
  lemma NonLeafPropertyAddsRange(cvr: CandidateValueRepository, o: DomainOntology, c: string, i: nat, fuel: nat)
    requires ClassTemplates(cvr, o, c, fuel).Success? && fuel > 0 && i < |DeclaredProperties(o, c)|
    requires IsLeafProperty(o, DeclaredProperties(o, c)[i], fuel - 1) == Success(false)
    ensures SingleRangeClass(o, DeclaredProperties(o, c)[i], true).Some?
    ensures var range := SingleRangeClass(o, DeclaredProperties(o, c)[i], true).value;
      !IsUnionClass(o, range) ==>
        ClassTemplates(cvr, o, range, fuel - 1).Success?
        && ClassTemplates(cvr, o, range, fuel - 1).value <= ClassTemplates(cvr, o, c, fuel).value
  {
    ContributionIncluded(cvr, o, c, i, fuel);
    NonLeafContribution(cvr, o, DeclaredProperties(o, c)[i], fuel - 1);
  }

  /**
   * When the range of a declared non-leaf property is a union, the
   * templates of each of its class operands are in a successful derivation.
   */
  lemma NonLeafPropertyAddsOperands(cvr: CandidateValueRepository, o: DomainOntology, c: string, i: nat, fuel: nat)
    requires ClassTemplates(cvr, o, c, fuel).Success? && fuel > 0 && i < |DeclaredProperties(o, c)|
    requires IsLeafProperty(o, DeclaredProperties(o, c)[i], fuel - 1) == Success(false)
    requires SingleRangeClass(o, DeclaredProperties(o, c)[i], true).Some?
    requires IsUnionClass(o, SingleRangeClass(o, DeclaredProperties(o, c)[i], true).value)
    ensures var operands := ClassOperands(o, SingleRangeClass(o, DeclaredProperties(o, c)[i], true).value);
      forall j :: 0 <= j < |operands| ==>
        ClassTemplates(cvr, o, operands[j], fuel - 1).Success?
        && ClassTemplates(cvr, o, operands[j], fuel - 1).value <= ClassTemplates(cvr, o, c, fuel).value
  {
    var operands := ClassOperands(o, SingleRangeClass(o, DeclaredProperties(o, c)[i], true).value);
    OperandsContribution(cvr, o, c, i, fuel);
    EachClassTemplatesIncluded(cvr, o, operands, fuel - 1, ClassTemplates(cvr, o, c, fuel).value);
  }

  /** The operands of a union range together contribute to a successful derivation. */
  lemma OperandsContribution(cvr: CandidateValueRepository, o: DomainOntology, c: string, i: nat, fuel: nat)
    requires ClassTemplates(cvr, o, c, fuel).Success? && fuel > 0 && i < |DeclaredProperties(o, c)|
    requires IsLeafProperty(o, DeclaredProperties(o, c)[i], fuel - 1) == Success(false)
    requires SingleRangeClass(o, DeclaredProperties(o, c)[i], true).Some?
    requires IsUnionClass(o, SingleRangeClass(o, DeclaredProperties(o, c)[i], true).value)
    ensures var operands := ClassOperands(o, SingleRangeClass(o, DeclaredProperties(o, c)[i], true).value);
      TemplatesOfAll(cvr, o, operands, fuel - 1).Success?
      && TemplatesOfAll(cvr, o, operands, fuel - 1).value <= ClassTemplates(cvr, o, c, fuel).value
  {
    ContributionIncluded(cvr, o, c, i, fuel);
    UnionRangeContribution(cvr, o, DeclaredProperties(o, c)[i], fuel - 1);
  }

  /** A non-leaf property whose range is a union contributes the templates of the operands. */
  lemma UnionRangeContribution(cvr: CandidateValueRepository, o: DomainOntology, p: string, fuel: nat)
    requires IsLeafProperty(o, p, fuel) == Success(false)
    requires SingleRangeClass(o, p, true).Some? && IsUnionClass(o, SingleRangeClass(o, p, true).value)
    ensures PropertyContribution(cvr, o, p, fuel) == TemplatesOfAll(cvr, o, ClassOperands(o, SingleRangeClass(o, p, true).value), fuel)
  {
    NonLeafContribution(cvr, o, p, fuel);
  }

  /** The templates of each class are within any bound on a successful union of derivations. */
  lemma EachClassTemplatesIncluded(cvr: CandidateValueRepository, o: DomainOntology, cs: seq<string>, fuel: nat,
                                   bound: set<ConditionTemplate>)
    requires TemplatesOfAll(cvr, o, cs, fuel).Success? && TemplatesOfAll(cvr, o, cs, fuel).value <= bound
    ensures forall j :: 0 <= j < |cs| ==>
      ClassTemplates(cvr, o, cs[j], fuel).Success? && ClassTemplates(cvr, o, cs[j], fuel).value <= bound
  {
    forall j | 0 <= j < |cs|
      ensures ClassTemplates(cvr, o, cs[j], fuel).Success? && ClassTemplates(cvr, o, cs[j], fuel).value <= bound
    {
      ClassTemplatesAt(cvr, o, cs, fuel, j);
    }
  }

  /** Every template of a successful derivation comes from a union of the class or from one of its declared properties. */
  lemma TemplateOrigin(cvr: CandidateValueRepository, o: DomainOntology, c: string, fuel: nat, t: ConditionTemplate)
    requires ClassTemplates(cvr, o, c, fuel).Success? && t in ClassTemplates(cvr, o, c, fuel).value
    ensures fuel > 0
    ensures (exists i :: 0 <= i < |UnionsWith(o, c)| && ClassTemplates(cvr, o, UnionsWith(o, c)[i], fuel - 1).Success?
                         && t in ClassTemplates(cvr, o, UnionsWith(o, c)[i], fuel - 1).value)
         || (exists i :: 0 <= i < |DeclaredProperties(o, c)| && PropertyContribution(cvr, o, DeclaredProperties(o, c)[i], fuel - 1).Success?
                         && t in PropertyContribution(cvr, o, DeclaredProperties(o, c)[i], fuel - 1).value)
  {
    var fromUnions := ClassTemplatesSteps(cvr, o, c, fuel);
    PropertyTemplatesContents(cvr, o, DeclaredProperties(o, c), fromUnions, fuel - 1);
    if t in fromUnions {
      UnionTemplateOrigin(cvr, o, UnionsWith(o, c), fuel - 1, t);
    }
  }

  /** A template of a successful union of derivations comes from one of its classes. */
  lemma UnionTemplateOrigin(cvr: CandidateValueRepository, o: DomainOntology, cs: seq<string>, fuel: nat, t: ConditionTemplate)
    requires TemplatesOfAll(cvr, o, cs, fuel).Success? && t in TemplatesOfAll(cvr, o, cs, fuel).value
    ensures exists i :: 0 <= i < |cs| && ClassTemplates(cvr, o, cs[i], fuel).Success? && t in ClassTemplates(cvr, o, cs[i], fuel).value
  {
    TemplatesOfAllContents(cvr, o, cs, fuel);
  }

  /**
   * Without a visited set, a class in no union whose first declared
   * property is an object property ranging over the class itself is
   * derived forever: every stack depth overflows.
   */
  lemma {:induction false} SelfRangeOverflows(cvr: CandidateValueRepository, o: DomainOntology, c: string, fuel: nat)
    requires |UnionsWith(o, c)| == 0 && !IsUnionClass(o, c) && |DeclaredProperties(o, c)| > 0
    requires !PropertyOf(o, DeclaredProperties(o, c)[0]).isDatatype && PropertyOf(o, DeclaredProperties(o, c)[0]).isObject
    requires SingleRangeClass(o, DeclaredProperties(o, c)[0], true) == Some(c)
    ensures ClassTemplates(cvr, o, c, fuel) == Failure(StackOverflow)
    decreases fuel
  {
    if fuel > 0 {
      assert IsLeafClass(o, c, fuel - 1) == Success(false);
      assert IsLeafProperty(o, DeclaredProperties(o, c)[0], fuel - 1) == Success(false);
      SelfRangeOverflows(cvr, o, c, fuel - 1);
      NonLeafContribution(cvr, o, DeclaredProperties(o, c)[0], fuel - 1);
    }
  }

  // ----------------------------------------------------------------------
  // findAnnotationRuleTags
  // ----------------------------------------------------------------------

  /**
   * The candidate value of an object-property value: its URI (null for a
   * blank node), display name or "", no claim value, SINGLE.
   */
  function AnnotationValue(o: DomainOntology, value: Rdf.Resource): (r: CandidateValue)
    ensures value.UriResource? ==> r.id == Some(value.uri)
    ensures value.BlankNode? ==> r.id == None
    ensures r.valueType == SINGLE && r.claimValue == None
    ensures r.labelText == Some(DisplayName(o, value.Identifier()).UnwrapOr(""))
  {
    var id := if value.UriResource? then Some(value.uri) else None;
    CandidateValue(id, Some(DisplayName(o, value.Identifier()).UnwrapOr("")), None, SINGLE)
  }

  /** The candidate values of a class's object-property values. */
  function TagValues(o: DomainOntology, values: map<string, Rdf.Resource>): (r: set<CandidateValue>)
    ensures forall v :: v in r <==> exists x :: x in values.Values && v == AnnotationValue(o, x)
  {
    set x | x in values.Values :: AnnotationValue(o, x)
  }

  /** The tag of one benefit-rule class: a single selection over its object-property values. */
  function RuleTag(o: DomainOntology, c: string): (r: Result<ConditionTemplate>)
    ensures r.Success? ==> r.value.SingleSelection? && r.value.id == c && r.value.displayName == DisplayName(o, c).UnwrapOr("")
    ensures r.Failure? <==> ObjectPropertiesOfClass(o, c).Failure?
  {
    var values :- ObjectPropertiesOfClass(o, c);
    Success(SingleSelection(c, DisplayName(o, c).UnwrapOr(""), TagValues(o, values)))
  }

  /** The tags of the classes added to `acc`, in iteration order. */
  function RuleTags(o: DomainOntology, classes: seq<string>, acc: set<ConditionTemplate>): (r: Result<set<ConditionTemplate>>)
    decreases |classes|
  {
    if |classes| == 0 then Success(acc)
    else
      var t :- RuleTag(o, classes[0]);
      RuleTags(o, classes[1..], acc + {t})
  }

  /** The tags fail only if the tag of one class does. */
  lemma {:induction false} RuleTagsSucceeds(o: DomainOntology, classes: seq<string>, acc: set<ConditionTemplate>)
    ensures RuleTags(o, classes, acc).Success? <==> forall i :: 0 <= i < |classes| ==> RuleTag(o, classes[i]).Success?
    decreases |classes|
  {
    if |classes| > 0 {
      var first := RuleTag(o, classes[0]);
      if first.Success? {
        RuleTagsSucceeds(o, classes[1..], acc + {first.value});
      }
      AllCons(c => RuleTag(o, c).Success?, classes);
    }
  }

  /** Successful tags are `acc` plus the tag of each class. */
  lemma {:induction false} RuleTagsContents(o: DomainOntology, classes: seq<string>, acc: set<ConditionTemplate>)
    requires RuleTags(o, classes, acc).Success?
    ensures forall t :: t in RuleTags(o, classes, acc).value <==>
      t in acc || exists i :: 0 <= i < |classes| && RuleTag(o, classes[i]) == Success(t)
    decreases |classes|
  {
    if |classes| > 0 {
      var first := RuleTag(o, classes[0]).value;
      var tags := RuleTags(o, classes, acc).value;
      assert tags == RuleTags(o, classes[1..], acc + {first}).value;
      RuleTagsContents(o, classes[1..], acc + {first});
      forall t
        ensures t in tags <==> t in acc || exists i :: 0 <= i < |classes| && RuleTag(o, classes[i]) == Success(t)
      {
        if t in tags && t !in acc && t != first {
          var i :| 0 <= i < |classes[1..]| && RuleTag(o, classes[1..][i]) == Success(t);
          assert RuleTag(o, classes[i + 1]) == Success(t);
        }
        if exists i :: 0 <= i < |classes| && RuleTag(o, classes[i]) == Success(t) {
          var i :| 0 <= i < |classes| && RuleTag(o, classes[i]) == Success(t);
          if i > 0 {
            assert RuleTag(o, classes[1..][i - 1]) == Success(t);
          }
        }
      }
    }
  }

  /**
   * findAnnotationRuleTags yields one single-selection template per
   * benefit-rule class, identified by the class, and nothing else.
   */
  lemma OneTagPerBenefitRuleClass(o: DomainOntology)
    requires RuleTags(o, o.benefitRuleClasses, {}).Success?
    ensures var tags := RuleTags(o, o.benefitRuleClasses, {}).value;
      && (forall c :: c in o.benefitRuleClasses ==> RuleTag(o, c).Success? && RuleTag(o, c).value in tags)
      && (forall t :: t in tags ==> t.id in o.benefitRuleClasses && t.SingleSelection? && RuleTag(o, t.id) == Success(t))
  {
    var cs := o.benefitRuleClasses;
    RuleTagsSucceeds(o, cs, {});
    RuleTagsContents(o, cs, {});
    forall c | c in cs
      ensures RuleTag(o, c).Success?
    {
      var i :| 0 <= i < |cs| && cs[i] == c;
    }
  }

  /** The inner loop of findAnnotationRuleTags: one candidate value per object-property value. */
  method AnnotationValues(o: DomainOntology, values: map<string, Rdf.Resource>) returns (candidateValues: set<CandidateValue>)
    ensures candidateValues == TagValues(o, values)
  {
    candidateValues := {};
    var rest := values.Values;
    while rest != {}
      invariant rest <= values.Values
      invariant candidateValues == set x | x in values.Values - rest :: AnnotationValue(o, x)
      decreases |rest|
    {
      var objPropValue :| objPropValue in rest;
      candidateValues := candidateValues + {AnnotationValue(o, objPropValue)};
      rest := rest - {objPropValue};
    }
  }

  /** findAnnotationRuleTags: the loop over the benefit-rule classes. */
  method FindAnnotationRuleTags(o: DomainOntology) returns (r: Result<set<ConditionTemplate>>)
    ensures r == RuleTags(o, o.benefitRuleClasses, {})
  {
    var res: set<ConditionTemplate> := {};
    var classes := o.benefitRuleClasses;
    for i := 0 to |classes|
      invariant RuleTags(o, classes[i..], res) == RuleTags(o, classes, {})
    {
      var benefitRuleType := classes[i];
      assert classes[i..][0] == benefitRuleType && classes[i..][1..] == classes[i + 1..];
      var objPropValueMap := ObjectPropertiesOfClass(o, benefitRuleType);
      if objPropValueMap.Failure? {
        return Failure(objPropValueMap.error);
      }
      var candidateValues := AnnotationValues(o, objPropValueMap.value);
      var tag := SingleSelection(benefitRuleType, DisplayName(o, benefitRuleType).UnwrapOr(""), candidateValues);
      assert RuleTag(o, benefitRuleType) == Success(tag);
      res := res + {tag};
    }
    assert classes[|classes|..] == [];
    return Success(res);
  }
}
