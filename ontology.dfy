/**
 * The queries of the domain ontology that the condition-template layer
 * relies on. The Jena model, its reasoner and the OntModelAdapter wrappers
 * are replaced by a finite ontology value holding what those queries
 * expose: classes with their superclasses, union operands and instances,
 * properties with their kinds, domains and ranges, individuals, the
 * statements, and the display-name and claim-value annotations.
 * Collections the code iterates are `seq`s in iteration order.
 */
module Ontology {
  import opened Wrappers
  import opened JavaStrings
  import opened CollectionsUtils
  import Rdf

  /** A property: its kinds and its declared domains and ranges in listing order. */
  datatype PropertyDecl = PropertyDecl(
    isDatatype: bool,
    isObject: bool,
    isFunctional: bool,
    domains: seq<string>,
    ranges: seq<string>)

  /**
   * A class: its superclasses as the reasoner lists them, its operands when
   * it is a union class (Some, possibly empty) and its instances.
   */
  datatype ClassDecl = ClassDecl(superclasses: set<string>, operands: Option<seq<string>>, instances: seq<string>)

  /**
   * The domain ontology. `classList` and `propertyList` are the orders in
   * which the model lists its classes and properties; `benefitRuleClasses`
   * are the keys of the properties-to-extract map.
   */
  datatype DomainOntology = DomainOntology(
    namespace: string,
    classList: seq<string>,
    classes: map<string, ClassDecl>,
    propertyList: seq<string>,
    properties: map<string, PropertyDecl>,
    individuals: set<string>,
    statements: seq<Rdf.Statement>,
    displayNames: map<string, string>,
    claimValues: map<string, string>,
    benefitRuleClasses: seq<string>)

  /** A URI naming no class reads as a class without superclasses, operands or instances. */
  function ClassOf(o: DomainOntology, c: string): ClassDecl
  {
    if c in o.classes then o.classes[c] else ClassDecl({}, None, [])
  }

  /** A URI naming no property reads as a property of no kind, domain or range. */
  function PropertyOf(o: DomainOntology, p: string): PropertyDecl
  {
    if p in o.properties then o.properties[p] else PropertyDecl(false, false, false, [], [])
  }

  predicate IsUnionClass(o: DomainOntology, c: string)
  {
    ClassOf(o, c).operands.Some?
  }

  /** The operand list of a union class (empty for any other class). */
  function Operands(o: DomainOntology, c: string): seq<string>
  {
    ClassOf(o, c).operands.UnwrapOr([])
  }

  /** The operands that can be viewed as classes, in list order. */
  function ClassOperands(o: DomainOntology, c: string): seq<string>
  {
    Filter(x => x in o.classes, Operands(o, c))
  }

  /** The class operands are the operands that are classes. */
  lemma ClassOperandsMembers(o: DomainOntology, c: string)
    ensures forall x :: x in ClassOperands(o, c) <==> x in Operands(o, c) && x in o.classes
  {
    FilterMembers(x => x in o.classes, Operands(o, c));
  }

  /** getNameSpace().equalsIgnoreCase(namespace), on ASCII. */
  predicate InNamespace(o: DomainOntology, uri: string)
  {
    Lower(Rdf.Namespace(uri)) == Lower(o.namespace)
  }

  /** getDisplayName: the display-name annotation, if any. */
  function DisplayName(o: DomainOntology, uri: string): Option<string>
  {
    if uri in o.displayNames then Some(o.displayNames[uri]) else None
  }

  /** getClaimValue: the claim-value annotation, or null. */
  function ClaimValue(o: DomainOntology, uri: string): Option<string>
  {
    if uri in o.claimValues then Some(o.claimValues[uri]) else None
  }

  /** displayNameOf in both repositories: the display name, falling back to the local name. */
  function LabelOf(o: DomainOntology, uri: string): (r: string)
    ensures uri in o.displayNames ==> r == o.displayNames[uri]
    ensures uri !in o.displayNames ==> r == Rdf.LocalName(uri)
  {
    DisplayName(o, uri).UnwrapOr(Rdf.LocalName(uri))
  }

  /** isPartOfUnion: the class is the union itself or one of its operands. */
  predicate IsPartOfUnion(o: DomainOntology, part: string, union: string)
  {
    part == union || (IsUnionClass(o, union) && part in Operands(o, union))
  }

  /** hasAsDomain: a declared domain class is the class or a union holding it. */
  predicate HasAsDomain(o: DomainOntology, p: string, d: string)
  {
    exists pd :: pd in PropertyOf(o, p).domains && pd in o.classes && IsPartOfUnion(o, d, pd)
  }

  /** hasAnyAsDomain */
  predicate HasAnyAsDomain(o: DomainOntology, p: string, ds: set<string>)
  {
    exists d :: d in ds && HasAsDomain(o, p, d)
  }

  /** getPropertiesWithDomain: the class or one of its superclasses is a domain of the property. */
  function PropertiesWithDomain(o: DomainOntology, c: string, onlyInNamespace: bool): seq<string>
  {
    Filter(p => HasAnyAsDomain(o, p, {c} + ClassOf(o, c).superclasses) && (onlyInNamespace ==> InNamespace(o, p)),
           o.propertyList)
  }

  /** The properties with the class as domain: those listed whose domain is the class or one of its superclasses. */
  lemma PropertiesWithDomainMembers(o: DomainOntology, c: string, onlyInNamespace: bool)
    ensures forall p :: p in PropertiesWithDomain(o, c, onlyInNamespace) <==>
      p in o.propertyList && HasAnyAsDomain(o, p, {c} + ClassOf(o, c).superclasses)
      && (onlyInNamespace ==> InNamespace(o, p))
  {
    FilterMembers(p => HasAnyAsDomain(o, p, {c} + ClassOf(o, c).superclasses) && (onlyInNamespace ==> InNamespace(o, p)),
                  o.propertyList);
  }

  /** getObjectAndDataPropertiesDeclaredForClass */
  function DeclaredProperties(o: DomainOntology, c: string): seq<string>
  {
    Filter(p => PropertyOf(o, p).isDatatype || PropertyOf(o, p).isObject, PropertiesWithDomain(o, c, true))
  }

  /** The declared properties are the datatype and object properties of the namespace with the class as domain. */
  lemma DeclaredPropertiesMembers(o: DomainOntology, c: string)
    ensures forall p :: p in DeclaredProperties(o, c) <==>
      p in o.propertyList && HasAnyAsDomain(o, p, {c} + ClassOf(o, c).superclasses) && InNamespace(o, p)
      && (PropertyOf(o, p).isDatatype || PropertyOf(o, p).isObject)
  {
    PropertiesWithDomainMembers(o, c, true);
    FilterMembers(p => PropertyOf(o, p).isDatatype || PropertyOf(o, p).isObject, PropertiesWithDomain(o, c, true));
  }

  /** keepOnlyDatatypeOrObjectProperties: a subset of the input, of the kinds a template can be built from. */
  function KeepOnlyDatatypeOrObjectProperties(o: DomainOntology, properties: set<string>): (r: set<string>)
    ensures r <= properties
    ensures forall p :: p in properties ==> (p in r <==> PropertyOf(o, p).isDatatype || PropertyOf(o, p).isObject)
  {
    set p | p in properties && (PropertyOf(o, p).isDatatype || PropertyOf(o, p).isObject)
  }

  /** The ranges of a property that are classes (of the namespace, if asked). */
  function RangeClasses(o: DomainOntology, p: string, onlyInNamespace: bool): seq<string>
  {
    Filter(x => x in o.classes && (onlyInNamespace ==> InNamespace(o, x)), PropertyOf(o, p).ranges)
  }

  /** The range classes are the declared ranges that are classes (of the namespace, if asked). */
  lemma RangeClassesMembers(o: DomainOntology, p: string, onlyInNamespace: bool)
    ensures forall x :: x in RangeClasses(o, p, onlyInNamespace) <==>
      x in PropertyOf(o, p).ranges && x in o.classes && (onlyInNamespace ==> InNamespace(o, x))
  {
    FilterMembers(x => x in o.classes && (onlyInNamespace ==> InNamespace(o, x)), PropertyOf(o, p).ranges);
  }

  /** getSingleRangeClass: one of the range classes, or none when there is none. */
  function SingleRangeClass(o: DomainOntology, p: string, onlyInNamespace: bool): (r: Option<string>)
    ensures r.None? <==> |RangeClasses(o, p, onlyInNamespace)| == 0
    ensures r.Some? ==> r.value in o.classes
  {
    RangeClassesMembers(o, p, onlyInNamespace);
    OptionalAny(RangeClasses(o, p, onlyInNamespace))
  }

  /** The single range class is a declared range of the property, of the namespace when asked. */
  lemma SingleRangeClassIsRange(o: DomainOntology, p: string, onlyInNamespace: bool)
    requires SingleRangeClass(o, p, onlyInNamespace).Some?
    ensures SingleRangeClass(o, p, onlyInNamespace).value in PropertyOf(o, p).ranges
    ensures onlyInNamespace ==> InNamespace(o, SingleRangeClass(o, p, onlyInNamespace).value)
  {
    RangeClassesMembers(o, p, onlyInNamespace);
  }

  /**
   * getSingleRange: more than one declared range is an illegal state;
   * otherwise the only range, if there is one.
   */
  function SingleRange(o: DomainOntology, p: string): (r: Result<Option<string>>)
    ensures r.Failure? <==> |PropertyOf(o, p).ranges| > 1
    ensures r.Failure? ==> r.error == IllegalState
    ensures r == Success(None) <==> |PropertyOf(o, p).ranges| == 0
    ensures r.Success? && r.value.Some? ==> PropertyOf(o, p).ranges == [r.value.value]
  {
    var ranges := PropertyOf(o, p).ranges;
    if |ranges| > 1 then Failure(IllegalState) else Success(OptionalAny(ranges))
  }

  // ----------------------------------------------------------------------
  // Leaf classes and properties. The recursion through union operands has
  // no visited set; `fuel` is the stack depth left, and a union met with
  // none left is a stack overflow.
  // ----------------------------------------------------------------------

  /** isLeafClass: a plain class declares no properties; a union's class operands all are leaves. */
  function IsLeafClass(o: DomainOntology, c: string, fuel: nat): (r: Result<bool>)
    ensures !IsUnionClass(o, c) ==> (r == Success(true) <==> |DeclaredProperties(o, c)| == 0) && r.Success?
    ensures r.Failure? ==> r == Failure(StackOverflow)
    decreases fuel, 0
  {
    if !IsUnionClass(o, c) then Success(|DeclaredProperties(o, c)| == 0)
    else if fuel == 0 then Failure(StackOverflow)
    else AllLeaves(o, ClassOperands(o, c), fuel - 1)
  }

  /** allMatch(isLeafClass): stops at the first operand that is not a leaf. */
  function AllLeaves(o: DomainOntology, cs: seq<string>, fuel: nat): (r: Result<bool>)
    ensures r.Failure? ==> r.error == StackOverflow
    decreases fuel, 1, |cs|
  {
    if |cs| == 0 then Success(true)
    else
      var leaf :- IsLeafClass(o, cs[0], fuel);
      if !leaf then Success(false) else AllLeaves(o, cs[1..], fuel)
  }

  /** allMatch holds exactly when every class is a leaf; a failure comes from one of them. */
  lemma {:induction false} AllLeavesIff(o: DomainOntology, cs: seq<string>, fuel: nat)
    ensures AllLeaves(o, cs, fuel) == Success(true) <==> forall i :: 0 <= i < |cs| ==> IsLeafClass(o, cs[i], fuel) == Success(true)
    ensures AllLeaves(o, cs, fuel).Failure? ==> exists i :: 0 <= i < |cs| && IsLeafClass(o, cs[i], fuel).Failure?
    decreases |cs|
  {
    if |cs| > 0 {
      AllLeavesIff(o, cs[1..], fuel);
      assert forall i :: 1 <= i < |cs| ==> cs[i] == cs[1..][i - 1];
    }
  }

  /** A union is a leaf exactly when each of its class operands is one. */
  lemma UnionLeafIff(o: DomainOntology, c: string, fuel: nat)
    requires IsUnionClass(o, c)
    ensures IsLeafClass(o, c, fuel) == Success(true) <==>
      fuel > 0 && forall x :: x in ClassOperands(o, c) ==> IsLeafClass(o, x, fuel - 1) == Success(true)
  {
    var ops := ClassOperands(o, c);
    if fuel > 0 {
      AllLeavesIff(o, ops, fuel - 1);
      if forall i :: 0 <= i < |ops| ==> IsLeafClass(o, ops[i], fuel - 1) == Success(true) {
        forall x | x in ops
          ensures IsLeafClass(o, x, fuel - 1) == Success(true)
        {
          var i :| 0 <= i < |ops| && ops[i] == x;
        }
      } else {
        var i :| 0 <= i < |ops| && IsLeafClass(o, ops[i], fuel - 1) != Success(true);
        assert ops[i] in ops;
      }
    }
  }

  /** isLeafProperty: a datatype property, or an object property whose single range class is a leaf. */
  function IsLeafProperty(o: DomainOntology, p: string, fuel: nat): (r: Result<bool>)
    ensures PropertyOf(o, p).isDatatype ==> r == Success(true)
    ensures !PropertyOf(o, p).isDatatype ==>
      (r == Success(true) <==> PropertyOf(o, p).isObject && SingleRangeClass(o, p, true).Some?
                               && IsLeafClass(o, SingleRangeClass(o, p, true).value, fuel) == Success(true))
  {
    var d := PropertyOf(o, p);
    if d.isDatatype then Success(true)
    else if !d.isObject then Success(false)
    else
      match SingleRangeClass(o, p, true)
      case None => Success(false)
      case Some(range) => IsLeafClass(o, range, fuel)
  }

  /** A leaf check that succeeds gives the same answer with more stack. */
  lemma {:induction false} IsLeafClassMonotone(o: DomainOntology, c: string, fuel: nat, more: nat)
    requires fuel <= more && IsLeafClass(o, c, fuel).Success?
    ensures IsLeafClass(o, c, more) == IsLeafClass(o, c, fuel)
    decreases fuel, 0
  {
    if IsUnionClass(o, c) {
      var ops := ClassOperands(o, c);
      assert IsLeafClass(o, c, fuel) == AllLeaves(o, ops, fuel - 1);
      assert IsLeafClass(o, c, more) == AllLeaves(o, ops, more - 1);
      AllLeavesMonotone(o, ops, fuel - 1, more - 1);
    }
  }

  lemma {:induction false} AllLeavesMonotone(o: DomainOntology, cs: seq<string>, fuel: nat, more: nat)
    requires fuel <= more && AllLeaves(o, cs, fuel).Success?
    ensures AllLeaves(o, cs, more) == AllLeaves(o, cs, fuel)
    decreases fuel, 1, |cs|
  {
    if |cs| > 0 {
      IsLeafClassMonotone(o, cs[0], fuel, more);
      if IsLeafClass(o, cs[0], fuel).value {
        AllLeavesMonotone(o, cs[1..], fuel, more);
      }
    }
  }

  /** A union whose first operand is itself never finishes the leaf check. */
  lemma {:induction false} SelfUnionOverflows(o: DomainOntology, c: string, fuel: nat)
    requires c in o.classes && IsUnionClass(o, c)
    requires |Operands(o, c)| > 0 && Operands(o, c)[0] == c
    ensures IsLeafClass(o, c, fuel) == Failure(StackOverflow)
    decreases fuel
  {
    if fuel > 0 {
      var ops := ClassOperands(o, c);
      assert ops == [c] + Filter(x => x in o.classes, Operands(o, c)[1..]);
      SelfUnionOverflows(o, c, fuel - 1);
    }
  }

  // ----------------------------------------------------------------------
  // Individuals with a property value.
  // ----------------------------------------------------------------------

  /** getIndividualsWithPropertyValue: the subjects of the statements with that predicate and object. */
  function IndividualsWithPropertyValue(o: DomainOntology, p: string, value: Rdf.Node): set<Rdf.Resource>
  {
    set s | s in o.statements && s.predicateUri == p && s.objectNode == value :: s.subject
  }

  /** The subject of the first statement with that predicate and object. */
  function FirstSubjectWith(statements: seq<Rdf.Statement>, p: string, value: Rdf.Node): (r: Option<Rdf.Resource>)
    ensures r.None? <==> forall s :: s in statements ==> !(s.predicateUri == p && s.objectNode == value)
    ensures r.Some? ==> exists s :: s in statements && s.predicateUri == p && s.objectNode == value && s.subject == r.value
  {
    if |statements| == 0 then None
    else if statements[0].predicateUri == p && statements[0].objectNode == value then Some(statements[0].subject)
    else FirstSubjectWith(statements[1..], p, value)
  }

  /** getUniqueIndividualWithPropertyValue: the individual when exactly one has the value. */
  function UniqueIndividualWithPropertyValue(o: DomainOntology, p: string, value: Rdf.Node): (r: Option<Rdf.Resource>)
    ensures r.Some? <==> |IndividualsWithPropertyValue(o, p, value)| == 1
    ensures r.Some? ==> IndividualsWithPropertyValue(o, p, value) == {r.value}
  {
    var subjects := IndividualsWithPropertyValue(o, p, value);
    if |subjects| == 1 then
      var first := FirstSubjectWith(o.statements, p, value);
      assert first.Some? && first.value in subjects;
      assert subjects == {first.value} by {
        assert |subjects - {first.value}| == 0;
      }
      first
    else None
  }

  // ----------------------------------------------------------------------
  // Object properties of a class, as findAnnotationRuleTags reads them.
  // ----------------------------------------------------------------------

  /** The statements about the class whose predicate is of the namespace and whose object is a resource. */
  function ObjectPropertyStatements(o: DomainOntology, c: string): seq<Rdf.Statement>
  {
    Filter((s: Rdf.Statement) => s.subject == Rdf.UriResource(c) && InNamespace(o, s.predicateUri) && s.objectNode.ResourceNode?,
           o.statements)
  }

  /** The statements kept are those about the class, with a predicate of the namespace and a resource object. */
  lemma ObjectPropertyStatementsMembers(o: DomainOntology, c: string)
    ensures forall s :: s in ObjectPropertyStatements(o, c) <==>
      s in o.statements && s.subject == Rdf.UriResource(c) && InNamespace(o, s.predicateUri) && s.objectNode.ResourceNode?
  {
    FilterMembers((s: Rdf.Statement) => s.subject == Rdf.UriResource(c) && InNamespace(o, s.predicateUri) && s.objectNode.ResourceNode?,
                  o.statements);
  }

  /** Collectors.toMap(predicate, object): a second value for the same predicate is an illegal state. */
  function PredicateToObject(statements: seq<Rdf.Statement>, acc: map<string, Rdf.Resource>): (r: Result<map<string, Rdf.Resource>>)
    requires forall s :: s in statements ==> s.objectNode.ResourceNode?
    ensures r.Failure? ==> r.error == IllegalState
    ensures r.Success? ==> forall k :: k in acc ==> k in r.value && r.value[k] == acc[k]
    ensures r.Success? ==> forall s :: s in statements ==> s.predicateUri in r.value && r.value[s.predicateUri] == s.objectNode.resource
    ensures r.Success? ==> forall k :: k in r.value ==> k in acc || exists s :: s in statements && s.predicateUri == k
    decreases |statements|
  {
    if |statements| == 0 then Success(acc)
    else
      var s := statements[0];
      if s.predicateUri in acc then Failure(IllegalState)
      else PredicateToObject(statements[1..], acc[s.predicateUri := s.objectNode.resource])
  }

  /** getAllObjectPropertiesOfClass */
  function ObjectPropertiesOfClass(o: DomainOntology, c: string): Result<map<string, Rdf.Resource>>
  {
    ObjectPropertyStatementsMembers(o, c);
    PredicateToObject(ObjectPropertyStatements(o, c), map[])
  }

  /** Two statements on one predicate with different objects make the map fail. */
  lemma {:induction false} PredicateToObjectRejectsClash(statements: seq<Rdf.Statement>, acc: map<string, Rdf.Resource>, i: nat, j: nat)
    requires forall s :: s in statements ==> s.objectNode.ResourceNode?
    requires i < |statements| && j < |statements|
    requires statements[i].predicateUri == statements[j].predicateUri
    requires statements[i].objectNode != statements[j].objectNode
    ensures PredicateToObject(statements, acc) == Failure(IllegalState)
  {
    assert statements[i] in statements && statements[j] in statements;
  }

  // ----------------------------------------------------------------------
  // The connected searches: breadth-first over the edges from a class to
  // the single range class of each property it is a domain of.
  // ----------------------------------------------------------------------

  /** The classes one step from `c`. */
  function RangeSuccessors(o: DomainOntology, c: string): (r: set<string>)
    ensures r <= o.classes.Keys
  {
    set p | p in PropertiesWithDomain(o, c, false) && SingleRangeClass(o, p, true).Some? :: SingleRangeClass(o, p, true).value
  }

  /** `s` holds the root and every range successor of its members. */
  ghost predicate ClosedFrom(o: DomainOntology, root: string, s: set<string>)
  {
    root in s && forall c :: c in s ==> RangeSuccessors(o, c) <= s
  }

  /** The properties some class of `cs` is a domain of. */
  ghost function PropertiesOf(o: DomainOntology, cs: set<string>): set<string>
  {
    set c, p | c in cs && p in PropertiesWithDomain(o, c, false) :: p
  }

  /** How many queue entries are already visited. */
  function VisitedEntries(open: seq<string>, visited: set<string>): nat
  {
    if |open| == 0 then 0 else (if open[0] in visited then 1 else 0) + VisitedEntries(open[1..], visited)
  }

  lemma {:induction false} VisitedEntriesAppend(a: seq<string>, b: seq<string>, visited: set<string>)
    requires forall x :: x in b ==> x !in visited
    ensures VisitedEntries(a + b, visited) == VisitedEntries(a, visited)
    decreases |a|
  {
    if |a| == 0 {
      VisitedEntriesNone(b, visited);
      assert a + b == b;
    } else {
      assert (a + b)[1..] == a[1..] + b;
      VisitedEntriesAppend(a[1..], b, visited);
    }
  }

  lemma {:induction false} VisitedEntriesNone(b: seq<string>, visited: set<string>)
    requires forall x :: x in b ==> x !in visited
    ensures VisitedEntries(b, visited) == 0
    decreases |b|
  {
    if |b| > 0 {
      assert forall x :: x in b[1..] ==> x in b;
      VisitedEntriesNone(b[1..], visited);
    }
  }

  /**
   * What holds between two polls of a connected search: every queued or
   * visited class lies in `universe`, the root is visited or queued, each
   * successor of a visited class is visited or queued, and every closed set
   * holds all visited and queued classes.
   */
  ghost predicate SearchInvariant(o: DomainOntology, root: string, universe: set<string>, open: seq<string>, visited: set<string>)
  {
    && visited <= universe
    && (forall x :: x in open ==> x in universe)
    && (root in visited || root in open)
    && (forall c :: c in visited ==> forall x :: x in RangeSuccessors(o, c) ==> x in visited || x in open)
    && (forall s :: ClosedFrom(o, root, s) ==> visited <= s && (forall x :: x in open ==> x in s))
  }

  /** Polling the head and queueing its unvisited successors keeps the invariant. */
  lemma SearchStep(o: DomainOntology, root: string, universe: set<string>, open: seq<string>, visited: set<string>, t: seq<string>)
    requires o.classes.Keys <= universe
    requires |open| > 0 && SearchInvariant(o, root, universe, open, visited)
    requires forall x :: x in t <==> x in NewRanges(o, open[0], visited + {open[0]})
    ensures SearchInvariant(o, root, universe, open[1..] + t, visited + {open[0]})
  {
    var current := open[0];
    var open' := open[1..] + t;
    var visited' := visited + {current};
    assert forall x :: x in open ==> x == current || x in open[1..];
    assert forall x :: x in open' <==> x in open[1..] || x in t;
    forall c | c in visited'
      ensures forall x :: x in RangeSuccessors(o, c) ==> x in visited' || x in open'
    {
    }
    forall s | ClosedFrom(o, root, s)
      ensures visited' <= s && (forall x :: x in open' ==> x in s)
    {
      assert current in open;
      assert RangeSuccessors(o, current) <= s;
    }
  }

  /** The successors of the polled class not visited yet. */
  function NewRanges(o: DomainOntology, current: string, visited: set<string>): (r: set<string>)
    ensures forall x :: x in r ==> x !in visited
  {
    set x | x in RangeSuccessors(o, current) && x !in visited
  }

  /** The measure of the search goes down with each poll. */
  lemma SearchProgress(o: DomainOntology, universe: set<string>, open: seq<string>, visited: set<string>, t: seq<string>)
    requires |open| > 0 && open[0] in universe && visited <= universe
    requires forall x :: x in t ==> x in NewRanges(o, open[0], visited + {open[0]})
    ensures |universe - (visited + {open[0]})| < |universe - visited|
         || (visited + {open[0]} == visited
             && VisitedEntries(open[1..] + t, visited + {open[0]}) < VisitedEntries(open, visited))
  {
    var current := open[0];
    if current in visited {
      assert visited + {current} == visited;
      VisitedEntriesAppend(open[1..], t, visited);
    } else {
      assert universe - visited == (universe - (visited + {current})) + {current};
    }
  }

  /** At the end of a search the visited classes are the least closed set. */
  lemma SearchDone(o: DomainOntology, root: string, universe: set<string>, visited: set<string>)
    requires SearchInvariant(o, root, universe, [], visited)
    ensures ClosedFrom(o, root, visited)
    ensures forall s :: ClosedFrom(o, root, s) ==> visited <= s
  {
  }

  /**
   * getAllClassesConnectedWithClass: the classes reachable from the root,
   * root included; the result is the least set closed under the edges.
   */
  method ConnectedClasses(o: DomainOntology, root: string) returns (classes: set<string>)
    ensures ClosedFrom(o, root, classes)
    ensures forall s :: ClosedFrom(o, root, s) ==> classes <= s
  {
    var open := [root];
    var visited: set<string> := {};
    classes := {};
    ghost var universe := o.classes.Keys + {root};
    while |open| > 0
      invariant classes == visited
      invariant SearchInvariant(o, root, universe, open, visited)
      decreases |universe - visited|, VisitedEntries(open, visited)
    {
      var current := open[0];
      var newRanges := NewRanges(o, current, visited + {current});
      var t := Elements(newRanges);
      SearchStep(o, root, universe, open, visited, t);
      SearchProgress(o, universe, open, visited, t);
      classes := classes + {current};
      visited := visited + {current};
      open := open[1..] + t;
    }
    SearchDone(o, root, universe, visited);
  }

  /**
   * getAllPropertiesConnectedWithClass: the properties whose domain is a
   * class reachable from the root. `classes` is the set the search visits,
   * the same least closed set as the connected-classes search.
   */
  method ConnectedProperties(o: DomainOntology, root: string) returns (properties: set<string>, ghost classes: set<string>)
    ensures ClosedFrom(o, root, classes)
    ensures forall s :: ClosedFrom(o, root, s) ==> classes <= s
    ensures properties == PropertiesOf(o, classes)
  {
    var open := [root];
    var visited: set<string> := {};
    properties := {};
    ghost var universe := o.classes.Keys + {root};
    while |open| > 0
      invariant properties == PropertiesOf(o, visited)
      invariant SearchInvariant(o, root, universe, open, visited)
      decreases |universe - visited|, VisitedEntries(open, visited)
    {
      var current := open[0];
      var propertiesWithDomain := PropertiesWithDomain(o, current, false);
      var newRanges := NewRanges(o, current, visited + {current});
      var t := Elements(newRanges);
      SearchStep(o, root, universe, open, visited, t);
      SearchProgress(o, universe, open, visited, t);
      PropertiesOfAdd(o, visited, current);
      visited := visited + {current};
      properties := properties + set p | p in propertiesWithDomain;
      open := open[1..] + t;
    }
    SearchDone(o, root, universe, visited);
    classes := visited;
  }

  lemma PropertiesOfAdd(o: DomainOntology, cs: set<string>, c: string)
    ensures PropertiesOf(o, cs + {c}) == PropertiesOf(o, cs) + set p | p in PropertiesWithDomain(o, c, false)
  {
  }

  /** Both searches visit the same classes: the least closed set is unique. */
  lemma LeastClosedUnique(o: DomainOntology, root: string, a: set<string>, b: set<string>)
    requires ClosedFrom(o, root, a) && forall s :: ClosedFrom(o, root, s) ==> a <= s
    requires ClosedFrom(o, root, b) && forall s :: ClosedFrom(o, root, s) ==> b <= s
    ensures a == b
  {
  }
}
