# Ontology and lifting: a Dafny model

This project models the core of the ontology-and-lifting service of a
system that extracts benefit rules from healthcare policy text. The
service keeps a domain ontology and a store of external entities (codes,
groups of codes and discovered terms). From these it derives the
condition templates a rule editor offers.

The model covers:

- **External entities** (`ExternalEntities`). There are three variants:
  individual, group and discovered. The model has the compatibility
  check `canBeMerged`, the null-tolerant field helpers, structural
  equality (the store `id` included, the timestamp not), and the merge
  of each variant. Singular fields take the first non-null value; set
  fields take the union.
- **The file-backed repository** (`ExternalEntityFilesRepository`). It
  groups the loaded entities by entity id and folds each group with
  merge. Two unmergeable entities with one id are an illegal state. The
  model also has the `find*` queries.
- **CSV lifting** (`LiftingConfiguration`, `LiftingService`). This
  covers:
  - the configuration defaults and case transformations;
  - the default formatter and `%s` slot filling;
  - the header map of the tabular reader, whose column lookup ignores
    case and the byte-order mark;
  - namespace normalisation;
  - the per-row entity parser: ids are built from the namespace, the
    type prefix and the snake-cased id value;
  - the accumulation of entities in a map keyed by entity id, merging on
    collision with the stored entity first.
- **Group addition** (`ExternalEntityService`). This covers:
  - the validation of code ranges and the claim-value membership test;
  - single-code lookup;
  - building a group from proposed members;
  - the import of groups from a seven-column CSV file.
- **Candidate values** (`CandidateValues`). An ontology individual takes
  precedence; the first matching extracted entity is the fallback. A
  value's type is GROUP exactly when its URI is a group entity id.
- **Condition templates** (`ConditionTemplates`). Templates are derived
  recursively over union classes and the single range class of each
  non-leaf property. The model also has the candidate values of a class
  and the annotation rule tags of the benefit-rule classes.
- **The domain ontology queries** (`Ontology`). These are:
  - leaf classes and leaf properties;
  - the single range and the single range class of a property;
  - the unique individual with a property value;
  - the object properties of a class;
  - the two breadth-first searches over domain-to-range edges.
- **Jena helpers**:
  - `Models`: URI generation for individuals, Turtle block sorting and
    namespace filtering;
  - `SubgraphExtraction`: the breadth-first subgraph extraction and its
    overloads;
  - `Rdf`: the splitting of a URI into namespace and local name.
- **Small helpers**:
  - `CollectionsUtils`;
  - `NlpUtils`: word counts, number words, `cleanText`, `isInteger`;
  - `SymbolsNormalisation`;
  - `Syntaxes`: the name round trip of the `Syntax` enum;
  - `JavaStrings`: the Java string operations the code relies on.

The model uses these conventions:

- **Exceptions.** A Java method that can throw returns a `Result`.
  `Failure` carries the kind of the exception (`Wrappers.Exception`),
  not its message.
- **Nulls.** A value the code checks or defaults against null is an
  `Option`.
- **Collections.** Lists and streams are sequences in iteration order.
  Result sets are Dafny sets, so they compare structurally as Java's
  hash sets of records do.
- **The ontology graph** is an abstract finite value (`DomainOntology`).
  It holds:
  - the classes with their superclasses, union operands and instances;
  - the properties with their kinds, domains and ranges;
  - the statements and the display-name and claim-value annotations;
  - the benefit-rule classes.
- **Recursion without a visited set.** The source recurses over the
  ontology without a visited set in template derivation, the leaf check
  and candidate values. There the model takes a `fuel` argument that
  stands for the JVM stack depth. Running out of it is a
  `StackOverflow` failure, and lemmas show that a cycle overflows at
  every depth.
- **Imperative code.** Loops that build results step by step are
  methods proved against the functions that specify them:
  - the tabular reader and the entity parsers (as classes);
  - group addition and the CSV import;
  - the annotation rule tags;
  - the connected searches and the subgraph extraction.

Three behaviours of the code are easy to misread, and the model follows
the code in each:

- Equality of entities compares the store `id`
  (ExternalEntity.java:98; `ExternalEntities.EqualsSeesStoreId`).
- Template derivation and the leaf check keep no visited set, so a cycle
  recurses until the stack runs out (ConditionTemplateRepository.java:75-104,
  DomainOntology.java:555-563; `ConditionTemplates.SelfRangeOverflows`,
  `Ontology.SelfUnionOverflows`).
- A range whose codes end with a shared letter is always refused
  (ExternalEntityService.java:123-139;
  `ExternalEntityService.TrailingLetterRangeAlwaysFails`).

## Model

| member | source | states |
|---|---|---|
| Ontology.IsUnionClass | ontology-and-lifting/src/main/java/com/ibm/wh/extractionservice/ontology/DomainOntology.java:556 | a class is a union exactly when it has an operand list; the leaf rows `Ontology.IsLeafClass` and `Ontology.UnionLeafIff` state how it steers the leaf check |
| Ontology.ClassOperands | ontology-and-lifting/src/main/java/com/ibm/wh/extractionservice/ontology/DomainOntology.java:559-561 | the operands of a union seen as classes; stated by `Ontology.ClassOperandsMembers` |
| Ontology.ClassOperandsMembers | ontology-and-lifting/src/main/java/com/ibm/wh/extractionservice/ontology/DomainOntology.java:559-561 | the operands of a union seen as classes are exactly its operands that are classes |
| Ontology.DisplayName | ontology-and-lifting/src/main/java/com/ibm/wh/extractionservice/ontology/DomainOntology.java:434-438 | the display-name annotation, or null (None) when there is none; stated through `Ontology.LabelOf` and `CandidateValues.IndividualValueFields` |
| Ontology.ClaimValue | ontology-and-lifting/src/main/java/com/ibm/wh/extractionservice/ontology/DomainOntology.java:440-444 | the claim-value annotation, or null (None) when there is none; stated through `CandidateValues.IndividualValueFields` |
| Ontology.LabelOf | ontology-and-lifting/src/main/java/com/ibm/wh/extractionservice/conditiontemplate/ConditionTemplateRepository.java:129-132 | the display-name annotation when there is one, else the local name of the URI |
| Ontology.PropertiesWithDomain | ontology-and-lifting/src/main/java/com/ibm/wh/extractionservice/support/jena/OntModelAdapter.java:218-230 | the properties of the ontology with the class or a superclass as domain; stated by `Ontology.PropertiesWithDomainMembers` |
| Ontology.PropertiesWithDomainMembers | ontology-and-lifting/src/main/java/com/ibm/wh/extractionservice/support/jena/OntModelAdapter.java:218-230 | a property is listed exactly when the class or one of its superclasses is one of its domains or an operand of a union domain, and when asked it lies in the ontology's namespace |
| Ontology.DeclaredProperties | ontology-and-lifting/src/main/java/com/ibm/wh/extractionservice/ontology/DomainOntology.java:565-569 | the datatype and object properties of the namespace with the class as domain; stated by `Ontology.DeclaredPropertiesMembers` |
| Ontology.DeclaredPropertiesMembers | ontology-and-lifting/src/main/java/com/ibm/wh/extractionservice/ontology/DomainOntology.java:565-569 | the declared properties are exactly the datatype and object properties of the namespace that have the class as domain |
| Ontology.KeepOnlyDatatypeOrObjectProperties | ontology-and-lifting/src/main/java/com/ibm/wh/extractionservice/ontology/DomainOntology.java:346-350 | a subset of the input holding exactly its datatype and object properties |
| Ontology.RangeClasses | ontology-and-lifting/src/main/java/com/ibm/wh/extractionservice/support/jena/OntModelAdapter.java:563-571 | the declared ranges that are named classes, of the namespace when asked; stated by `Ontology.RangeClassesMembers` and `Ontology.SingleRangeClassIsRange` |
| Ontology.RangeClassesMembers | ontology-and-lifting/src/main/java/com/ibm/wh/extractionservice/support/jena/OntModelAdapter.java:563-571 | the range classes are exactly the declared ranges that are classes, of the namespace when asked |
| Ontology.SingleRangeClass | ontology-and-lifting/src/main/java/com/ibm/wh/extractionservice/support/jena/OntModelAdapter.java:563-576 | empty exactly when there is no range class; otherwise a class of the ontology |
| Ontology.SingleRangeClassIsRange | ontology-and-lifting/src/main/java/com/ibm/wh/extractionservice/support/jena/OntModelAdapter.java:563-576 | the single range class is a declared range of the property, of the namespace when asked |
| Ontology.SingleRange | ontology-and-lifting/src/main/java/com/ibm/wh/extractionservice/ontology/DomainOntology.java:571-576 | more than one range is an illegal state; no range gives empty; otherwise the only range |
| Ontology.IsLeafClass | ontology-and-lifting/src/main/java/com/ibm/wh/extractionservice/ontology/DomainOntology.java:555-563 | a class that is not a union is a leaf exactly when it declares no datatype or object property; the only failure is running out of stack |
| Ontology.AllLeaves | ontology-and-lifting/src/main/java/com/ibm/wh/extractionservice/ontology/DomainOntology.java:559-562 | the only failure is running out of stack |
| Ontology.AllLeavesIff | ontology-and-lifting/src/main/java/com/ibm/wh/extractionservice/ontology/DomainOntology.java:559-562 | all operands are leaves exactly when each of them is, and a failure comes from one of them |
| Ontology.UnionLeafIff | ontology-and-lifting/src/main/java/com/ibm/wh/extractionservice/ontology/DomainOntology.java:558-562 | a union is a leaf exactly when each of its class operands is, given stack to reach them |
| Ontology.IsLeafProperty | ontology-and-lifting/src/main/java/com/ibm/wh/extractionservice/ontology/DomainOntology.java:545-553 | a datatype property is a leaf; otherwise a leaf exactly when it is an object property whose single range class exists and is a leaf |
| Ontology.IsLeafClassMonotone | ontology-and-lifting/src/main/java/com/ibm/wh/extractionservice/ontology/DomainOntology.java:555-563 | once a leaf check succeeds, more stack gives the same answer |
| Ontology.AllLeavesMonotone | ontology-and-lifting/src/main/java/com/ibm/wh/extractionservice/ontology/DomainOntology.java:559-562 | once an operand check succeeds, more stack gives the same answer |
| Ontology.SelfUnionOverflows | ontology-and-lifting/src/main/java/com/ibm/wh/extractionservice/ontology/DomainOntology.java:555-563 | a union whose first operand is itself overflows the stack at every depth |
| Ontology.IndividualsWithPropertyValue | ontology-and-lifting/src/main/java/com/ibm/wh/extractionservice/ontology/DomainOntology.java:383-388 | the subjects of the statements with that predicate and object; stated by `Ontology.UniqueIndividualWithPropertyValue` |
| Ontology.FirstSubjectWith | ontology-and-lifting/src/main/java/com/ibm/wh/extractionservice/ontology/DomainOntology.java:384-394 | empty exactly when no statement has the predicate and value; otherwise the subject of such a statement |
| Ontology.UniqueIndividualWithPropertyValue | ontology-and-lifting/src/main/java/com/ibm/wh/extractionservice/ontology/DomainOntology.java:390-397 | present exactly when one subject has the value, and then it is that subject |
| Ontology.ObjectPropertyStatements | ontology-and-lifting/src/main/java/com/ibm/wh/extractionservice/ontology/DomainOntology.java:518-521 | the statements about the class whose predicate is in the namespace and whose object is a resource; stated by `Ontology.ObjectPropertyStatementsMembers` |
| Ontology.ObjectPropertiesOfClass | ontology-and-lifting/src/main/java/com/ibm/wh/extractionservice/ontology/DomainOntology.java:517-523 | the predicate-to-object map of those statements, failing on a duplicate predicate with two objects; stated by `Ontology.PredicateToObject` and `Ontology.PredicateToObjectRejectsClash` |
| Ontology.ObjectPropertyStatementsMembers | ontology-and-lifting/src/main/java/com/ibm/wh/extractionservice/ontology/DomainOntology.java:518-521 | the statements kept are exactly those about the class whose predicate lies in the namespace and whose object is a resource |
| Ontology.PredicateToObject | ontology-and-lifting/src/main/java/com/ibm/wh/extractionservice/ontology/DomainOntology.java:522 | fails only with an illegal state; on success the map keeps what it held and sends each statement's predicate to its object, with no other keys |
| Ontology.PredicateToObjectRejectsClash | ontology-and-lifting/src/main/java/com/ibm/wh/extractionservice/ontology/DomainOntology.java:522 | two statements with one predicate and different objects are an illegal state |
| Ontology.RangeSuccessors | ontology-and-lifting/src/main/java/com/ibm/wh/extractionservice/ontology/DomainOntology.java:418-424 | the classes one search step can reach are classes of the ontology |
| Ontology.NewRanges | ontology-and-lifting/src/main/java/com/ibm/wh/extractionservice/ontology/DomainOntology.java:419-424 | the ranges queued by a step are not visited yet |
| Ontology.SearchStep | ontology-and-lifting/src/main/java/com/ibm/wh/extractionservice/ontology/DomainOntology.java:414-426 | polling a class and queueing its unvisited range classes keeps the search invariant |
| Ontology.SearchProgress | ontology-and-lifting/src/main/java/com/ibm/wh/extractionservice/ontology/DomainOntology.java:414-426 | each poll visits a new class or drops an already visited entry from the queue |
| Ontology.SearchDone | ontology-and-lifting/src/main/java/com/ibm/wh/extractionservice/ontology/DomainOntology.java:414-427 | when the queue is empty the visited classes are the least set holding the root and closed under range edges |
| Ontology.ConnectedClasses | ontology-and-lifting/src/main/java/com/ibm/wh/extractionservice/ontology/DomainOntology.java:409-428 | the result holds the root, is closed under range edges, and lies within every such set: exactly the classes reachable from the root |
| Ontology.ConnectedProperties | ontology-and-lifting/src/main/java/com/ibm/wh/extractionservice/ontology/DomainOntology.java:355-374 | the result is exactly the properties whose domain is a class reachable from the root |
| Ontology.PropertiesOfAdd | ontology-and-lifting/src/main/java/com/ibm/wh/extractionservice/ontology/DomainOntology.java:363-370 | visiting one more class adds exactly the properties with that class as domain |
| Ontology.LeastClosedUnique | ontology-and-lifting/src/main/java/com/ibm/wh/extractionservice/ontology/DomainOntology.java:355-374 | both searches visit the same classes |
| CollectionsUtils.UnionAll | ontology-and-lifting/src/main/java/com/ibm/wh/extractionservice/commons/utils/CollectionsUtils.java:29-31 | an element is in the union exactly when it is in one of the argument sets |
| CollectionsUtils.Any | ontology-and-lifting/src/main/java/com/ibm/wh/extractionservice/commons/utils/CollectionsUtils.java:25-27 | succeeds exactly on a non-empty collection, with one of its elements; otherwise fails with NoSuchElementException |
| CollectionsUtils.First | ontology-and-lifting/src/main/java/com/ibm/wh/extractionservice/commons/utils/CollectionsUtils.java:33-36 | element 0 of a non-empty list; an empty list, and only that, gives IllegalArgumentException |
| CollectionsUtils.OptionalAny | ontology-and-lifting/src/main/java/com/ibm/wh/extractionservice/commons/utils/CollectionsUtils.java:38-41 | empty exactly for an empty collection, otherwise an element of it |
| CollectionsUtils.Sort | ontology-and-lifting/src/main/java/com/ibm/wh/extractionservice/commons/utils/CollectionsUtils.java:44-45 | the sorted list is a permutation of the input (same multiset) |
| CollectionsUtils.SortSorted | ontology-and-lifting/src/main/java/com/ibm/wh/extractionservice/commons/utils/CollectionsUtils.java:44-45 | under a comparator that is a total preorder the sorted list is ordered |
| CollectionsUtils.SortAndGetFirst | ontology-and-lifting/src/main/java/com/ibm/wh/extractionservice/commons/utils/CollectionsUtils.java:43-47 | fails exactly on an empty collection, otherwise returns one of its elements |
| CollectionsUtils.SortAndGetFirstIsMinimal | ontology-and-lifting/src/main/java/com/ibm/wh/extractionservice/commons/utils/CollectionsUtils.java:43-47 | under a total preorder the returned element is no greater than any element of the collection |
| ExternalEntities.NewEntity | ontology-and-lifting/src/main/java/com/ibm/wh/extractionservice/commons/externalentity/ExternalEntity.java:45-55 | a freshly built entity has no store id and exactly the given entity id, type ids, names, surface forms, description, tag, claim value and class |
| ExternalEntities.EqualsOrOneIsNull | ontology-and-lifting/src/main/java/com/ibm/wh/extractionservice/commons/externalentity/ExternalEntity.java:127-130 | true when either value is null, otherwise exactly when the two values are equal |
| ExternalEntities.FirstOrSecondIfNull | ontology-and-lifting/src/main/java/com/ibm/wh/extractionservice/commons/externalentity/ExternalEntity.java:132-135 | the first value unless it is null, then the second; null only when both are |
| ExternalEntities.CanBeMerged | ontology-and-lifting/src/main/java/com/ibm/wh/extractionservice/commons/externalentity/ExternalEntity.java:116-125 | the compatibility check: same class, and every singular field equal or null on one side; stated by `ExternalEntities.CanBeMergedNeedsSameClass`, `CanBeMergedReflexive` and `CanBeMergedSymmetric` |
| ExternalEntities.CanBeMergedNeedsSameClass | ontology-and-lifting/src/main/java/com/ibm/wh/extractionservice/commons/externalentity/ExternalEntity.java:116-125 | a null argument or one of another class is never mergeable |
| ExternalEntities.CanBeMergedReflexive | ontology-and-lifting/src/main/java/com/ibm/wh/extractionservice/commons/externalentity/ExternalEntity.java:116-125 | every entity can be merged with itself |
| ExternalEntities.CanBeMergedSymmetric | ontology-and-lifting/src/main/java/com/ibm/wh/extractionservice/commons/externalentity/ExternalEntity.java:116-125 | a can be merged with b exactly when b can be merged with a |
| ExternalEntities.Equals | ontology-and-lifting/src/main/java/com/ibm/wh/extractionservice/commons/externalentity/ExternalEntity.java:93-107 | structural equality over the class and every field except the timestamp; stated by `ExternalEntities.EqualsIsStructural` and `ExternalEntities.EqualsSeesStoreId` |
| ExternalEntities.EqualsIsStructural | ontology-and-lifting/src/main/java/com/ibm/wh/extractionservice/commons/externalentity/ExternalEntity.java:94-107 | for individual and group entities equals is equality of every field; discovered entities compare equal regardless of their externalEntityIds |
| ExternalEntities.EqualsSeesStoreId | ontology-and-lifting/src/main/java/com/ibm/wh/extractionservice/commons/externalentity/ExternalEntity.java:98 | an entity with a store id differs from the same entity without one |
| ExternalEntities.Merge | ontology-and-lifting/src/main/java/com/ibm/wh/extractionservice/commons/externalentity/type/IndividualExternalEntity.java:20-33 | fails with IllegalArgumentException exactly when the entities cannot be merged; a merge keeps the receiver's class and has no store id |
| ExternalEntities.MergeSucceeds | ontology-and-lifting/src/main/java/com/ibm/wh/extractionservice/commons/externalentity/type/DiscoveredExternalEntity.java:27-41 | merge succeeds exactly on mergeable entities whose set fields are present; a discovered entity with null externalEntityIds makes it throw a NullPointerException |
| ExternalEntities.MergeFields | ontology-and-lifting/src/main/java/com/ibm/wh/extractionservice/commons/externalentity/type/GroupExternalEntity.java:45-59 | each singular field is the receiver's value unless null, then the argument's; type ids, surface forms, members and externalEntityIds are the unions |
| ExternalEntities.MergeSelf | ontology-and-lifting/src/main/java/com/ibm/wh/extractionservice/commons/externalentity/type/GroupExternalEntity.java:45-59 | merging an entity with itself gives the same entity without its store id |
| ExternalEntities.MergeCommutative | ontology-and-lifting/src/main/java/com/ibm/wh/extractionservice/commons/externalentity/type/GroupExternalEntity.java:45-59 | on mergeable entities the order of the two arguments does not change the result |
| ExternalEntities.MergedCanBeMerged | ontology-and-lifting/src/main/java/com/ibm/wh/extractionservice/commons/externalentity/ExternalEntity.java:116-125 | a merged entity can be merged with a third exactly when both of its inputs can |
| ExternalEntities.CanBeMergedWithMerged | ontology-and-lifting/src/main/java/com/ibm/wh/extractionservice/commons/externalentity/ExternalEntity.java:116-125 | an entity can be merged with a merged entity exactly when it can be merged with both inputs |
| ExternalEntities.MergeAssociative | ontology-and-lifting/src/main/java/com/ibm/wh/extractionservice/commons/externalentity/type/GroupExternalEntity.java:45-59 | merging three pairwise mergeable entities gives the same entity whichever pair is merged first |
| ExternalEntityFilesRepository.MergeOrThrow | ontology-and-lifting/src/main/java/com/ibm/wh/extractionservice/externalentity/ExternalEntityFilesRepository.java:49-54 | incompatible entities, and only those, give IllegalStateException; compatible ones give the merge of the two |
| ExternalEntityFilesRepository.GroupByEntityId | ontology-and-lifting/src/main/java/com/ibm/wh/extractionservice/externalentity/ExternalEntityFilesRepository.java:39-47 | the grouping fold of the loaded entities; stated by `GroupByEntityIdKeys`, `GroupByEntityIdSurfaceForms`, `GroupByEntityIdSucceeds` and `GroupByEntityIdIsMergeAll` |
| ExternalEntityFilesRepository.Load | ontology-and-lifting/src/main/java/com/ibm/wh/extractionservice/externalentity/ExternalEntityFilesRepository.java:31-47 | the repository built from the loaded entities; stated by `FindByEntityIdAfterLoad`, `LoadMergesDuplicates` and `LoadMergesTwoRows` |
| ExternalEntityFilesRepository.GroupByEntityIdKeys | ontology-and-lifting/src/main/java/com/ibm/wh/extractionservice/externalentity/ExternalEntityFilesRepository.java:39-47 | the loaded map has one key per distinct non-null entityId of the input, and every entity is stored under its own entityId |
| ExternalEntityFilesRepository.GroupByEntityIdSurfaceForms | ontology-and-lifting/src/main/java/com/ibm/wh/extractionservice/externalentity/ExternalEntityFilesRepository.java:39-47 | each stored entity's surface forms are the union of those of every loaded entity with its id; the other fields are stated by `GroupedEntityFields` and `MergeAllFields` |
| ExternalEntityFilesRepository.MergeKeepsSets | ontology-and-lifting/src/main/java/com/ibm/wh/extractionservice/externalentity/ExternalEntityFilesRepository.java:49-54 | merging entities whose set fields are present gives an entity whose set fields are present |
| ExternalEntityFilesRepository.GroupByEntityIdSucceeds | ontology-and-lifting/src/main/java/com/ibm/wh/extractionservice/externalentity/ExternalEntityFilesRepository.java:39-47 | loading succeeds exactly when no entityId is null and every two entities with one id (and any entity already stored under it) are mergeable |
| ExternalEntityFilesRepository.MergeAll | ontology-and-lifting/src/main/java/com/ibm/wh/extractionservice/externalentity/ExternalEntityFilesRepository.java:43-54 | the left fold of `mergeOrThrow` over a group; stated by `MergeAllFields` |
| ExternalEntityFilesRepository.MergeAllFields | ontology-and-lifting/src/main/java/com/ibm/wh/extractionservice/externalentity/ExternalEntityFilesRepository.java:43-54 | a successful fold has, for each singular field, the first non-null value of the group, the union of the type ids and of the surface forms, the union of the members of groups and of the external ids of discovered entities, the class of the first entity, and a null store id unless the group has one entity |
| ExternalEntityFilesRepository.GroupByEntityIdIsMergeAll | ontology-and-lifting/src/main/java/com/ibm/wh/extractionservice/externalentity/ExternalEntityFilesRepository.java:39-47 | each stored value is the fold of merge over the entities with its id, in load order, starting from the value already stored under that id when there is one |
| ExternalEntityFilesRepository.GroupByEntityIdAppend | ontology-and-lifting/src/main/java/com/ibm/wh/extractionservice/externalentity/ExternalEntityFilesRepository.java:40-43 | grouping a concatenation is grouping the second part into the result of grouping the first |
| ExternalEntityFilesRepository.GroupedEntityFields | ontology-and-lifting/src/main/java/com/ibm/wh/extractionservice/externalentity/ExternalEntityFilesRepository.java:39-54 | from an empty map, each stored entity has the first non-null singular fields and the unioned set fields of the entities with its id, is that entity itself when it is alone, and has a null store id otherwise |
| ExternalEntityFilesRepository.LoadMergesDuplicates | ontology-and-lifting/src/main/java/com/ibm/wh/extractionservice/externalentity/ExternalEntityFilesRepository.java:31-47 | a loaded repository stores under each id the merge of all entities with that id, field by field as in `GroupedEntityFields` |
| ExternalEntityFilesRepository.LoadMergesTwoRows | ontology-and-lifting/src/main/java/com/ibm/wh/extractionservice/externalentity/ExternalEntityFilesRepository.java:39-54 | two entities with one id, one giving the display name and one the description, load as one entity that has both, with the unions of their type ids and surface forms |
| ExternalEntityFilesRepository.FindAll | ontology-and-lifting/src/main/java/com/ibm/wh/extractionservice/externalentity/ExternalEntityFilesRepository.java:73-75 | exactly the stored entities |
| ExternalEntityFilesRepository.FindByType | ontology-and-lifting/src/main/java/com/ibm/wh/extractionservice/externalentity/ExternalEntityFilesRepository.java:78-82 | exactly the stored entities of the requested type |
| ExternalEntityFilesRepository.FindByTypePartitions | ontology-and-lifting/src/main/java/com/ibm/wh/extractionservice/externalentity/ExternalEntityFilesRepository.java:78-82 | the three types split the stored entities into disjoint parts that together make up findAll |
| ExternalEntityFilesRepository.FindByEntityId | ontology-and-lifting/src/main/java/com/ibm/wh/extractionservice/externalentity/ExternalEntityFilesRepository.java:85-88 | the stored entity for a known id; an unknown id, and only that, gives IllegalArgumentException |
| ExternalEntityFilesRepository.FindByEntityIdAfterLoad | ontology-and-lifting/src/main/java/com/ibm/wh/extractionservice/externalentity/ExternalEntityFilesRepository.java:85-88 | after loading, a lookup succeeds exactly for the loaded entity ids and yields an entity carrying that id |
| Syntaxes.GetName | ontology-and-lifting/src/main/java/com/ibm/wh/extractionservice/ontology/Syntax.java:30-46 | every constant has one of the five syntax names |
| Syntaxes.FromName | ontology-and-lifting/src/main/java/com/ibm/wh/extractionservice/ontology/Syntax.java:13-28 | succeeds exactly on the five names; any other name gives IllegalArgumentException |
| Syntaxes.FromNameOfGetName | ontology-and-lifting/src/main/java/com/ibm/wh/extractionservice/ontology/Syntax.java:13-46 | every constant is found again from its name |
| Syntaxes.GetNameOfFromName | ontology-and-lifting/src/main/java/com/ibm/wh/extractionservice/ontology/Syntax.java:13-46 | an accepted name is the name of the constant it yields |
| Syntaxes.GetNameInjective | ontology-and-lifting/src/main/java/com/ibm/wh/extractionservice/ontology/Syntax.java:30-46 | distinct constants have distinct names |
| SymbolsNormalisation.NormaliseSlashes | ontology-and-lifting/src/main/java/com/ibm/wh/extractionservice/ontology/normalisation/SymbolsNormalisation.java:26-27 | collapses " / " to "/" and then pads every slash; stated by `SymbolsNormalisation.SlashesFlanked` and `CollapsePaddedSlash` |
| SymbolsNormalisation.NormaliseDashes | ontology-and-lifting/src/main/java/com/ibm/wh/extractionservice/ontology/normalisation/SymbolsNormalisation.java:28-29 | the same two steps for dashes; stated by `SymbolsNormalisation.DashesFlanked` |
| SymbolsNormalisation.Normalise | ontology-and-lifting/src/main/java/com/ibm/wh/extractionservice/ontology/normalisation/SymbolsNormalisation.java:24-30 | slashes and then dashes; stated by `SymbolsNormalisation.NormaliseWithoutSymbols` and `SlashSpacingIrrelevant` |
| SymbolsNormalisation.Expand | ontology-and-lifting/src/main/java/com/ibm/wh/extractionservice/ontology/normalisation/SymbolsNormalisation.java:27 | padding a character with spaces, one occurrence at a time, never introduces the character elsewhere |
| SymbolsNormalisation.ReplaceCharIsExpand | ontology-and-lifting/src/main/java/com/ibm/wh/extractionservice/ontology/normalisation/SymbolsNormalisation.java:27 | String.replace of a one-character pattern replaces every occurrence of that character |
| SymbolsNormalisation.ExpandFlanks | ontology-and-lifting/src/main/java/com/ibm/wh/extractionservice/ontology/normalisation/SymbolsNormalisation.java:27 | after padding, every occurrence of the character has a space on each side |
| SymbolsNormalisation.SlashesFlanked | ontology-and-lifting/src/main/java/com/ibm/wh/extractionservice/ontology/normalisation/SymbolsNormalisation.java:26-27 | after the slash steps every slash stands between two spaces |
| SymbolsNormalisation.DashesFlanked | ontology-and-lifting/src/main/java/com/ibm/wh/extractionservice/ontology/normalisation/SymbolsNormalisation.java:24-30 | in the normalised text every dash stands between two spaces |
| SymbolsNormalisation.NormaliseWithoutSymbols | ontology-and-lifting/src/main/java/com/ibm/wh/extractionservice/ontology/normalisation/SymbolsNormalisation.java:24-30 | a text without slashes and dashes is left unchanged |
| SymbolsNormalisation.CollapsePaddedSlash | ontology-and-lifting/src/main/java/com/ibm/wh/extractionservice/ontology/normalisation/SymbolsNormalisation.java:26 | the first step turns "a / b" into "a/b" when neither part holds a slash |
| SymbolsNormalisation.SlashSpacingIrrelevant | ontology-and-lifting/src/main/java/com/ibm/wh/extractionservice/ontology/normalisation/SymbolsNormalisation.java:24-30 | "a/b" and "a / b" normalise to the same text when the parts hold no slash and do not touch it with a space |
| NlpUtils.TokenCount | ontology-and-lifting/src/main/java/com/ibm/wh/extractionservice/support/NlpUtils.java:33 | the token count never exceeds the text length |
| NlpUtils.WordsCount | ontology-and-lifting/src/main/java/com/ibm/wh/extractionservice/support/NlpUtils.java:31-34 | zero for a null or empty text, otherwise the number of tokens |
| NlpUtils.TokenCountZeroIff | ontology-and-lifting/src/main/java/com/ibm/wh/extractionservice/support/NlpUtils.java:31-34 | a text has no words exactly when it is made only of space, tab, newline, carriage-return and form-feed characters |
| NlpUtils.TokenCountJoin | ontology-and-lifting/src/main/java/com/ibm/wh/extractionservice/support/NlpUtils.java:31-34 | joining two texts with a delimiter adds their word counts |
| NlpUtils.NumberWordsStartWithLetter | ontology-and-lifting/src/main/java/com/ibm/wh/extractionservice/support/NlpUtils.java:14-29 | every number word in the table starts with a lower-case letter |
| NlpUtils.RemoveChar | ontology-and-lifting/src/main/java/com/ibm/wh/extractionservice/support/NlpUtils.java:63-64 | removing a character keeps exactly the other characters and never lengthens the text |
| NlpUtils.CleanText | ontology-and-lifting/src/main/java/com/ibm/wh/extractionservice/support/NlpUtils.java:61-67 | a cleaned text neither starts nor ends with whitespace |
| NlpUtils.CleanTextProperties | ontology-and-lifting/src/main/java/com/ibm/wh/extractionservice/support/NlpUtils.java:61-67 | a cleaned text has no upper-case letter; a text wrapped in parentheses loses all of them; any other text is only lower-cased and trimmed |
| NlpUtils.TextToInteger | ontology-and-lifting/src/main/java/com/ibm/wh/extractionservice/support/NlpUtils.java:43-45 | present exactly when the cleaned text is one of the thirteen number words, with that word's value |
| NlpUtils.ValueOfCleaned | ontology-and-lifting/src/main/java/com/ibm/wh/extractionservice/support/NlpUtils.java:38-41 | digits give their value when it fits in 32 bits; other texts give a number word's value; everything else is a NumberFormatException; a value is always a 32-bit integer |
| NlpUtils.IntegerValueOf | ontology-and-lifting/src/main/java/com/ibm/wh/extractionservice/support/NlpUtils.java:38-41 | the integer of the cleaned text, parsed when numeric and looked up among the number words otherwise; stated by `NlpUtils.IntegerValueOfIsValueOfCleaned` |
| NlpUtils.IntegerValueOfIsValueOfCleaned | ontology-and-lifting/src/main/java/com/ibm/wh/extractionservice/support/NlpUtils.java:38-41 | integerValueOf is the function of the once-cleaned text described by ValueOfCleaned |
| NlpUtils.IsInteger | ontology-and-lifting/src/main/java/com/ibm/wh/extractionservice/support/NlpUtils.java:47-50 | true exactly when the cleaned text is digits or the twice-cleaned text is a number word |
| NlpUtils.LowerOfCleanText | ontology-and-lifting/src/main/java/com/ibm/wh/extractionservice/support/NlpUtils.java:49 | lower-casing a cleaned text changes nothing |
| NlpUtils.CleanTextOfClean | ontology-and-lifting/src/main/java/com/ibm/wh/extractionservice/support/NlpUtils.java:61-67 | a trimmed, lower-case text that does not start with a parenthesis is its own cleaning |
| NlpUtils.IsIntegerOverflows | ontology-and-lifting/src/main/java/com/ibm/wh/extractionservice/support/NlpUtils.java:38-50 | any text that cleans to digits above 2147483647 passes isInteger but fails integerValueOf |
| NlpUtils.IsIntegerOverflow | ontology-and-lifting/src/main/java/com/ibm/wh/extractionservice/support/NlpUtils.java:38-50 | "2147483648" passes isInteger and fails integerValueOf |
| NlpUtils.IsIntegerCleansTwice | ontology-and-lifting/src/main/java/com/ibm/wh/extractionservice/support/NlpUtils.java:43-50 | a text that becomes a number word only after a second cleaning passes isInteger but fails integerValueOf |
| NlpUtils.IsIntegerDoubleCleaning | ontology-and-lifting/src/main/java/com/ibm/wh/extractionservice/support/NlpUtils.java:43-50 | " (two) " passes isInteger and fails integerValueOf |
| NlpUtils.IsIntegerCorrected | ontology-and-lifting/src/main/java/com/ibm/wh/extractionservice/support/NlpUtils.java:47-50 | `isInteger` with one cleaning and the int bound; stated by `NlpUtils.IsIntegerCorrectedAgrees` |
| NlpUtils.IsIntegerCorrectedAgrees | ontology-and-lifting/src/main/java/com/ibm/wh/extractionservice/support/NlpUtils.java:38-50 | the corrected integer check accepts exactly the texts integerValueOf accepts |
| Rdf.SplitNamespaceXml | ontology-and-lifting/src/main/java/com/ibm/wh/extractionservice/support/jena/Models.java:670-672 | the split point of a URI: everything after it is an XML name character and the first is a name start character |
| Rdf.LocalName | ontology-and-lifting/src/main/java/com/ibm/wh/extractionservice/support/jena/Models.java:670-672 | the local name is made of XML name characters and starts with a name-start character |
| Rdf.Namespace | ontology-and-lifting/src/main/java/com/ibm/wh/extractionservice/support/jena/Models.java:670-672 | the namespace followed by the local name gives back the URI |
| Models.ToSnakeCase | ontology-and-lifting/src/main/java/com/ibm/wh/extractionservice/support/jena/Models.java:687-691 | the trimmed name, lower-cased, with every space turned into an underscore: same length, no space and no upper-case letter left |
| Models.CamelToSnake | ontology-and-lifting/src/main/java/com/ibm/wh/extractionservice/support/jena/Models.java:683 | the lower-camel to lower-underscore case conversion; stated by `Models.CamelToSnakeProperties` |
| Models.CamelTailProperties | ontology-and-lifting/src/main/java/com/ibm/wh/extractionservice/support/jena/Models.java:683 | camel-to-snake conversion lengthens a text by one underscore per capital and leaves no capital |
| Models.CamelToSnakeProperties | ontology-and-lifting/src/main/java/com/ibm/wh/extractionservice/support/jena/Models.java:683 | the snake form has no capital, one extra character per inner capital, and keeps an all-lower-case text unchanged |
| Models.IndividualNamePrefix | ontology-and-lifting/src/main/java/com/ibm/wh/extractionservice/support/jena/Models.java:680-685 | the prefix always ends with an underscore |
| Models.CleanIndividualName | ontology-and-lifting/src/main/java/com/ibm/wh/extractionservice/support/jena/Models.java:676 | every character outside letters, digits, white space and ':' becomes '_', and every other character is kept in place |
| Models.CleanIndividualNameIdempotent | ontology-and-lifting/src/main/java/com/ibm/wh/extractionservice/support/jena/Models.java:676 | cleaning a cleaned name changes nothing |
| Models.CleanIndividualNameConcat | ontology-and-lifting/src/main/java/com/ibm/wh/extractionservice/support/jena/Models.java:676 | cleaning works character by character, so it distributes over concatenation |
| Models.GenerateUriForIndividual | ontology-and-lifting/src/main/java/com/ibm/wh/extractionservice/support/jena/Models.java:674-678 | the namespace followed by the cleaned type prefix and snake-cased name; stated by `Models.GeneratedUriIsLonger`, `GeneratedUriShape` and `GeneratedUriIgnoresCaseAndPadding` |
| Models.GeneratedUriIsLonger | ontology-and-lifting/src/main/java/com/ibm/wh/extractionservice/support/jena/Models.java:674-678 | a generated URI is strictly longer than its namespace |
| Models.GeneratedUriShape | ontology-and-lifting/src/main/java/com/ibm/wh/extractionservice/support/jena/Models.java:674-678 | the URI starts with the namespace; the rest is non-empty, holds only letters, digits, white space, ':' and '_', and ends with the cleaned snake form of the individual name |
| Models.GeneratedUriIgnoresCaseAndPadding | ontology-and-lifting/src/main/java/com/ibm/wh/extractionservice/support/jena/Models.java:674-678 | lower-casing or trimming the individual name does not change the generated URI |
| Models.TurtleStatementComparator | ontology-and-lifting/src/main/java/com/ibm/wh/extractionservice/support/jena/Models.java:76-95 | the Turtle block comparator; stated by `Models.TurtleComparatorIsRankThenText` and `TurtleOrderIsTotalPreorder` |
| Models.SortTurtle | ontology-and-lifting/src/main/java/com/ibm/wh/extractionservice/support/jena/Models.java:69-74 | the blocks sorted by the comparator and joined, or an index failure on an empty block; stated by `Models.SortTurtleFails`, `SortTurtleSorts` and `SortedBlocksPrefixesFirst` |
| Models.TurtleComparatorIsRankThenText | ontology-and-lifting/src/main/java/com/ibm/wh/extractionservice/support/jena/Models.java:76-95 | the comparator is zero only on equal blocks and negative exactly when the first block has a higher priority, or the same priority and comes first lexicographically |
| Models.TurtleBlocks | ontology-and-lifting/src/main/java/com/ibm/wh/extractionservice/support/jena/Models.java:70-71 | one trimmed block per piece between blank lines |
| Models.TurtleOrderIsTotalPreorder | ontology-and-lifting/src/main/java/com/ibm/wh/extractionservice/support/jena/Models.java:76-95 | on non-empty blocks the comparator is total and transitive |
| Models.SortTurtleFails | ontology-and-lifting/src/main/java/com/ibm/wh/extractionservice/support/jena/Models.java:69-74 | sortTurtle fails exactly when there are at least two blocks and one of them is empty (substring(0, 1) on an empty block) |
| Models.SortedPairInOrder | ontology-and-lifting/src/main/java/com/ibm/wh/extractionservice/support/jena/Models.java:72 | after sorting non-empty blocks every pair is in comparator order |
| Models.SortTurtleSorts | ontology-and-lifting/src/main/java/com/ibm/wh/extractionservice/support/jena/Models.java:69-74 | a successful sortTurtle joins with blank lines a permutation of the trimmed blocks that is ordered by the comparator |
| Models.SortedBlocksInOrder | ontology-and-lifting/src/main/java/com/ibm/wh/extractionservice/support/jena/Models.java:72 | sorted non-empty blocks stay non-empty and are ordered by the comparator |
| Models.SortedBlocksPrefixesFirst | ontology-and-lifting/src/main/java/com/ibm/wh/extractionservice/support/jena/Models.java:77-84 | after sorting, every prefix declaration comes before every other block |
| Models.OnlyPrefixesPrecedePrefix | ontology-and-lifting/src/main/java/com/ibm/wh/extractionservice/support/jena/Models.java:76-95 | only a prefix declaration can compare no greater than a prefix declaration |
| Models.FilterByNamespace | ontology-and-lifting/src/main/java/com/ibm/wh/extractionservice/support/jena/Models.java:127-132 | exactly the named resources of the input whose namespace is the given one |
| Models.FilterByNamespaceIdempotent | ontology-and-lifting/src/main/java/com/ibm/wh/extractionservice/support/jena/Models.java:127-132 | filtering twice by the same namespace is filtering once |
| LiftingConfiguration.ColumnMapping.GetEntityType | ontology-and-lifting/src/main/java/com/ibm/wh/extractionservice/externalentity/lifting/LiftingConfiguration.java:53-55 | a missing entity type reads as INDIVIDUAL, a present one as itself |
| LiftingConfiguration.CustomProperty.GetType | ontology-and-lifting/src/main/java/com/ibm/wh/extractionservice/externalentity/lifting/LiftingConfiguration.java:205-207 | a missing range type reads as LITERAL, a present one as itself |
| LiftingConfiguration.PropertyMapping.GetFormatter | ontology-and-lifting/src/main/java/com/ibm/wh/extractionservice/externalentity/lifting/LiftingConfiguration.java:84-86 | a configured formatter is returned as it is; otherwise the default formatter for the columns |
| LiftingConfiguration.WithColumns | ontology-and-lifting/src/main/java/com/ibm/wh/extractionservice/externalentity/lifting/LiftingConfiguration.java:76-78 | the columns-only constructor keeps the columns and property, sets no formatter, and sets the transformation NONE |
| LiftingConfiguration.Slots | ontology-and-lifting/src/main/java/com/ibm/wh/extractionservice/externalentity/lifting/LiftingConfiguration.java:95-97 | one "%s" per column |
| LiftingConfiguration.SwapCaseChar | ontology-and-lifting/src/main/java/com/ibm/wh/extractionservice/externalentity/lifting/LiftingConfiguration.java:121 | upper-case letters become lower-case and the other way round; anything else is kept |
| LiftingConfiguration.SwapCase | ontology-and-lifting/src/main/java/com/ibm/wh/extractionservice/externalentity/lifting/LiftingConfiguration.java:121 | the case of every character is swapped, position by position |
| LiftingConfiguration.Capitalize | ontology-and-lifting/src/main/java/com/ibm/wh/extractionservice/externalentity/lifting/LiftingConfiguration.java:123 | the first character is upper-cased and the rest kept |
| LiftingConfiguration.Uncapitalize | ontology-and-lifting/src/main/java/com/ibm/wh/extractionservice/externalentity/lifting/LiftingConfiguration.java:125 | the first character is lower-cased and the rest kept |
| LiftingConfiguration.Apply | ontology-and-lifting/src/main/java/com/ibm/wh/extractionservice/externalentity/lifting/LiftingConfiguration.java:114-131 | every transformation keeps the length of the text |
| LiftingConfiguration.ApplyChangesOnlyCase | ontology-and-lifting/src/main/java/com/ibm/wh/extractionservice/externalentity/lifting/LiftingConfiguration.java:114-131 | NONE keeps the text; UPPERCASE leaves no lower-case letter and LOWERCASE no upper-case one, both changing only case; no transformation touches a non-letter |
| LiftingConfiguration.SwapCaseInvolutive | ontology-and-lifting/src/main/java/com/ibm/wh/extractionservice/externalentity/lifting/LiftingConfiguration.java:120-121 | swapping case twice gives the text back |
| LiftingConfiguration.ApplyIdempotent | ontology-and-lifting/src/main/java/com/ibm/wh/extractionservice/externalentity/lifting/LiftingConfiguration.java:114-131 | every transformation except SWAPCASE is idempotent |
| LiftingConfiguration.SlotCountOfJoinedSlots | ontology-and-lifting/src/main/java/com/ibm/wh/extractionservice/externalentity/lifting/LiftingConfiguration.java:95-97 | joining n slots with " - " gives a format with n slots |
| LiftingConfiguration.DefaultFormatter | ontology-and-lifting/src/main/java/com/ibm/wh/extractionservice/externalentity/lifting/LiftingConfiguration.java:92-98 | "%s" without columns, otherwise one slot per column joined by " - "; stated by `LiftingConfiguration.DefaultFormatterSlots` and `DefaultFormatterJoins` |
| LiftingConfiguration.DefaultFormatterSlots | ontology-and-lifting/src/main/java/com/ibm/wh/extractionservice/externalentity/lifting/LiftingConfiguration.java:92-98 | the default formatter has exactly one slot per listed column |
| LiftingConfiguration.FormatOfSlot | ontology-and-lifting/src/main/java/com/ibm/wh/extractionservice/externalentity/lifting/LiftingConfiguration.java:92-98 | formatting a leading "%s" consumes the first value, and the rest of the format takes the remaining values |
| LiftingConfiguration.FormatOfSeparator | ontology-and-lifting/src/main/java/com/ibm/wh/extractionservice/externalentity/lifting/LiftingConfiguration.java:97 | the " - " separator is copied into the formatted text |
| LiftingConfiguration.DefaultFormatterJoins | ontology-and-lifting/src/main/java/com/ibm/wh/extractionservice/externalentity/lifting/LiftingConfiguration.java:92-98 | formatting one value per column with the default formatter joins the values with " - " |
| LiftingService.CleanForComparison | ontology-and-lifting/src/main/java/com/ibm/wh/extractionservice/externalentity/lifting/LiftingService.java:127-129 | a cleaned name neither starts nor ends with whitespace |
| LiftingService.CleanedHasNoUpperOrBom | ontology-and-lifting/src/main/java/com/ibm/wh/extractionservice/externalentity/lifting/LiftingService.java:127-129 | a cleaned name holds no upper-case letter and no byte order mark |
| LiftingService.CleanForComparisonIgnoresCase | ontology-and-lifting/src/main/java/com/ibm/wh/extractionservice/externalentity/lifting/LiftingService.java:127-129 | upper- or lower-casing a name first does not change its cleaned form |
| LiftingService.CleanForComparisonIdempotent | ontology-and-lifting/src/main/java/com/ibm/wh/extractionservice/externalentity/lifting/LiftingService.java:127-129 | cleaning a cleaned name changes nothing |
| LiftingService.CleanedNames | ontology-and-lifting/src/main/java/com/ibm/wh/extractionservice/externalentity/lifting/LiftingService.java:121-123 | the cleaned form of each header name, position by position |
| LiftingService.HeaderPositions | ontology-and-lifting/src/main/java/com/ibm/wh/extractionservice/externalentity/lifting/LiftingService.java:119-125 | every position in the header map is a position of the header record |
| LiftingService.PositionsOfKeys | ontology-and-lifting/src/main/java/com/ibm/wh/extractionservice/externalentity/lifting/LiftingService.java:120-124 | the map has a key for each listed name and no other |
| LiftingService.PositionsOfLastWins | ontology-and-lifting/src/main/java/com/ibm/wh/extractionservice/externalentity/lifting/LiftingService.java:121-123 | each name maps to the last position that holds it |
| LiftingService.HeaderPositionsLastWins | ontology-and-lifting/src/main/java/com/ibm/wh/extractionservice/externalentity/lifting/LiftingService.java:119-125 | the header map has a key for exactly the cleaned header names, each mapped to the last header that cleans to it |
| LiftingService.CsvTabularDataReader.CleanHeaders | ontology-and-lifting/src/main/java/com/ibm/wh/extractionservice/externalentity/lifting/LiftingService.java:119-125 | the loop builds exactly the header map described by HeaderPositions |
| LiftingService.ValueAt | ontology-and-lifting/src/main/java/com/ibm/wh/extractionservice/externalentity/lifting/LiftingService.java:109-112 | an unknown column is empty; a known column beyond the end of a short line is an index error; otherwise the value at the header's position |
| LiftingService.ValueAtIgnoresCase | ontology-and-lifting/src/main/java/com/ibm/wh/extractionservice/externalentity/lifting/LiftingService.java:131-132 | column lookup does not depend on the case of the column name |
| LiftingService.CsvTabularDataReader.constructor | ontology-and-lifting/src/main/java/com/ibm/wh/extractionservice/externalentity/lifting/LiftingService.java:81-90 | the header record is the current line and the header map is built from it |
| LiftingService.CsvTabularDataReader.MoveToNextLine | ontology-and-lifting/src/main/java/com/ibm/wh/extractionservice/externalentity/lifting/LiftingService.java:98-106 | the next record becomes current, or none after the last one; the header map is unchanged |
| LiftingService.CsvTabularDataReader.GetValue | ontology-and-lifting/src/main/java/com/ibm/wh/extractionservice/externalentity/lifting/LiftingService.java:109-112 | the value of a column on the current line is its ValueAt under the reader's header map |
| LiftingService.NormaliseNamespace | ontology-and-lifting/src/main/java/com/ibm/wh/extractionservice/externalentity/lifting/LiftingService.java:168-172 | the result starts with the trimmed namespace, ends in "/" or "#", and has no surrounding whitespace |
| LiftingService.NormaliseNamespaceIdempotent | ontology-and-lifting/src/main/java/com/ibm/wh/extractionservice/externalentity/lifting/LiftingService.java:168-172 | normalising a normalised namespace changes nothing |
| LiftingService.ColumnValuesOf | ontology-and-lifting/src/main/java/com/ibm/wh/extractionservice/externalentity/lifting/LiftingService.java:281-289 | at most one value per column; the only failures are a null transformation and a line too short |
| LiftingService.ColumnValue | ontology-and-lifting/src/main/java/com/ibm/wh/extractionservice/externalentity/lifting/LiftingService.java:283-286 | a column contributes a value exactly when it is known, and that value is its cell after the case transformation |
| LiftingService.ColumnValues | ontology-and-lifting/src/main/java/com/ibm/wh/extractionservice/externalentity/lifting/LiftingService.java:281-289 | a null column list and the per-column failures are the only failures |
| LiftingService.ColumnValuesOfCount | ontology-and-lifting/src/main/java/com/ibm/wh/extractionservice/externalentity/lifting/LiftingService.java:281-289 | a value is collected for every column exactly when every column is known |
| LiftingService.ColumnValuesOfContents | ontology-and-lifting/src/main/java/com/ibm/wh/extractionservice/externalentity/lifting/LiftingService.java:281-289 | when every column is known, the i-th value is the i-th column's cell after the case transformation |
| LiftingService.ReadValueAsString | ontology-and-lifting/src/main/java/com/ibm/wh/extractionservice/externalentity/lifting/LiftingService.java:277-279 | the only failures are those of the column values and a missing format argument |
| LiftingService.ReadValueWithDefaultFormatter | ontology-and-lifting/src/main/java/com/ibm/wh/extractionservice/externalentity/lifting/LiftingService.java:277-279 | with the default formatter a value is read exactly when every column is known, and it is the transformed cells joined by " - "; otherwise a format argument is missing |
| LiftingService.ApplyProperty | ontology-and-lifting/src/main/java/com/ibm/wh/extractionservice/externalentity/lifting/LiftingService.java:248-275 | a custom property mapping is unsupported; a predefined one never removes a surface form |
| LiftingService.ApplyProperties | ontology-and-lifting/src/main/java/com/ibm/wh/extractionservice/externalentity/lifting/LiftingService.java:242-246 | the mappings never remove a surface form, and fail only as a single mapping does |
| LiftingService.BuildEntity | ontology-and-lifting/src/main/java/com/ibm/wh/extractionservice/externalentity/lifting/LiftingService.java:220-227 | an empty id, and only that, is an illegal state; otherwise a new entity with the id, the collected type ids, the tag and the collected fields, a group without members or an individual according to the mapping |
| LiftingService.ParseEntity | ontology-and-lifting/src/main/java/com/ibm/wh/extractionservice/externalentity/lifting/LiftingService.java:215-228 | a parsed entity always has an entity id and no store id, and comes from a mapping that has both a column and a type |
| LiftingService.ParseEntitySteps | ontology-and-lifting/src/main/java/com/ibm/wh/extractionservice/externalentity/lifting/LiftingService.java:215-236 | a null column fails first with a null pointer; then the id column is read, a null type fails with a null pointer once the value is present, then the property mappings run, and the entity is built from the generated URI and the collected fields; each step's failure is the parse's failure |
| LiftingService.ParseEntityErrors | ontology-and-lifting/src/main/java/com/ibm/wh/extractionservice/externalentity/lifting/LiftingService.java:220-233 | a null column, and a null type with a present id value, are null pointers; a missing id value is an illegal argument; a leading custom property mapping is unsupported; the empty-id check never fires |
| LiftingService.ParseEntityShape | ontology-and-lifting/src/main/java/com/ibm/wh/extractionservice/externalentity/lifting/LiftingService.java:215-236 | a parsed entity comes from a mapping with a column and a type, and carries the generated URI of its id value, exactly the mapping's type, the tag, and the class of the mapping's entity type |
| LiftingService.EntityParserFor | ontology-and-lifting/src/main/java/com/ibm/wh/extractionservice/externalentity/lifting/LiftingService.java:193 | the parser of one column mapping on the current line; stated through `LiftingService.ParseEntity` and its lemmas |
| LiftingService.ParseLine | ontology-and-lifting/src/main/java/com/ibm/wh/extractionservice/externalentity/lifting/LiftingService.java:190-195 | one entity per mapping, or the first failure, and a null-pointer failure without mappings; stated by `LiftingService.ParseLineOnePerMapping`, `ParseLineFailure` and `ParseLineIds` |
| LiftingService.ParseLineOnePerMapping | ontology-and-lifting/src/main/java/com/ibm/wh/extractionservice/externalentity/lifting/LiftingService.java:190-195 | a line yields exactly one entity per column mapping, the i-th parsed by the i-th mapping |
| LiftingService.ParseLineFailure | ontology-and-lifting/src/main/java/com/ibm/wh/extractionservice/externalentity/lifting/LiftingService.java:190-195 | a line fails with the error of the first mapping that fails |
| LiftingService.PutAll | ontology-and-lifting/src/main/java/com/ibm/wh/extractionservice/externalentity/lifting/LiftingService.java:179-184 | the map put with merge on collision; stated by `LiftingService.PutAllIsGroupByEntityId` |
| LiftingService.PutAllIsGroupByEntityId | ontology-and-lifting/src/main/java/com/ibm/wh/extractionservice/externalentity/lifting/LiftingService.java:179-184 | storing a line's entities builds the same map as the repository's grouping by entity id; an unmergeable pair is an illegal argument here and an illegal state there |
| LiftingService.ParseLineIds | ontology-and-lifting/src/main/java/com/ibm/wh/extractionservice/externalentity/lifting/LiftingService.java:190-195 | every entity parsed from a line has an entity id |
| LiftingService.LiftFrom | ontology-and-lifting/src/main/java/com/ibm/wh/extractionservice/externalentity/lifting/LiftingService.java:174-188 | the loop over the lines; stated by `LiftingService.LiftFromKeyedById` and `LiftFromIsGroupByEntityId` |
| LiftingService.LiftedEntities | ontology-and-lifting/src/main/java/com/ibm/wh/extractionservice/externalentity/lifting/LiftingService.java:174-195 | the entities of all lines in order, or the first failure; the sequence that `LiftFromIsGroupByEntityId` groups |
| LiftingService.LiftFromIsGroupByEntityId | ontology-and-lifting/src/main/java/com/ibm/wh/extractionservice/externalentity/lifting/LiftingService.java:174-188 | a successful lift is the repository's grouping of all lifted entities into the accumulated map |
| LiftingService.LiftFromKeyedById | ontology-and-lifting/src/main/java/com/ibm/wh/extractionservice/externalentity/lifting/LiftingService.java:174-188 | the lifted map keeps its earlier keys and holds every entity under its own entity id |
| LiftingService.Lift | ontology-and-lifting/src/main/java/com/ibm/wh/extractionservice/externalentity/lifting/LiftingService.java:42-49 | an input without records, or a configuration without namespace, fails with a null pointer |
| LiftingService.HeaderOnlyLiftsNothing | ontology-and-lifting/src/main/java/com/ibm/wh/extractionservice/externalentity/lifting/LiftingService.java:174-177 | the header record produces no entity, so a header-only input lifts to nothing |
| LiftingService.LiftKeyedById | ontology-and-lifting/src/main/java/com/ibm/wh/extractionservice/externalentity/lifting/LiftingService.java:174-188 | a lifted input holds at most one entity per entity id, stored under that id |
| LiftingService.LiftMergesDuplicates | ontology-and-lifting/src/main/java/com/ibm/wh/extractionservice/externalentity/lifting/LiftingService.java:174-188 | every lifted entity is the merge of all entities lifted with its id: first non-null singular fields, unions of type ids, surface forms and members |
| LiftingService.ExternalEntityParser.constructor | ontology-and-lifting/src/main/java/com/ibm/wh/extractionservice/externalentity/lifting/LiftingService.java:208-213 | a new parser has the mapping and tag and no collected fields |
| LiftingService.ExternalEntityParser.Parse | ontology-and-lifting/src/main/java/com/ibm/wh/extractionservice/externalentity/lifting/LiftingService.java:215-228 | the parse of the current line is ParseEntity of the mapping, the tag and that line |
| LiftingService.ExternalEntityParser.ParseEntityId | ontology-and-lifting/src/main/java/com/ibm/wh/extractionservice/externalentity/lifting/LiftingService.java:230-236 | the id becomes the generated URI of the id column's value; a null column or, after a present value, a null type is a null pointer; a missing value is an illegal argument; nothing else changes |
| LiftingService.ExternalEntityParser.ParseEntityTypes | ontology-and-lifting/src/main/java/com/ibm/wh/extractionservice/externalentity/lifting/LiftingService.java:238-240 | the mapping's type becomes the only type id, and nothing else changes |
| LiftingService.ExternalEntityParser.ParseProperties | ontology-and-lifting/src/main/java/com/ibm/wh/extractionservice/externalentity/lifting/LiftingService.java:242-246 | the loop leaves the fields that ApplyProperties computes, or reports its failure |
| LiftingService.ExternalEntityParser.ParseProperty | ontology-and-lifting/src/main/java/com/ibm/wh/extractionservice/externalentity/lifting/LiftingService.java:248-297 | one mapping leaves the fields that ApplyProperty computes, or reports its failure |
| LiftingService.ExternalEntitiesParser.constructor | ontology-and-lifting/src/main/java/com/ibm/wh/extractionservice/externalentity/lifting/LiftingService.java:161-166 | the parser keeps the reader, mappings and tag, and the normalised namespace |
| LiftingService.ExternalEntitiesParser.ParseEntitiesFromCurrentLine | ontology-and-lifting/src/main/java/com/ibm/wh/extractionservice/externalentity/lifting/LiftingService.java:190-195 | the loop yields exactly ParseLine of the current line |
| LiftingService.ExternalEntitiesParser.PutEntities | ontology-and-lifting/src/main/java/com/ibm/wh/extractionservice/externalentity/lifting/LiftingService.java:179-184 | storing one line's entities in place agrees with the lifting fold, so a failed merge stops the parse with its error |
| LiftingService.ExternalEntitiesParser.Parse | ontology-and-lifting/src/main/java/com/ibm/wh/extractionservice/externalentity/lifting/LiftingService.java:174-188 | after skipping the header, the loop computes the lifted map of the remaining lines, and on success leaves no current line |
| LiftingService.LiftEntities | ontology-and-lifting/src/main/java/com/ibm/wh/extractionservice/externalentity/lifting/LiftingService.java:42-49 | succeeds exactly when Lift does, and returns the values of the lifted map or Lift's error |
| ExternalEntityService.CheckOrder | ontology-and-lifting/src/main/java/com/ibm/wh/extractionservice/externalentity/ExternalEntityService.java:137-139 | a range is accepted exactly when its start number is below its end number; otherwise an illegal argument |
| ExternalEntityService.ParseBounds | ontology-and-lifting/src/main/java/com/ibm/wh/extractionservice/externalentity/ExternalEntityService.java:133-139 | succeeds exactly when both numbers parse as Java ints and ascend, yielding those bounds; errors are number-format or illegal-argument |
| ExternalEntityService.GetRangeBounds | ontology-and-lifting/src/main/java/com/ibm/wh/extractionservice/externalentity/ExternalEntityService.java:105-139 | an empty start code is an index error; a leading letter must be shared by the end code and becomes the prefix; success means ascending int bounds and a letter prefix exactly when the start code begins with a letter |
| ExternalEntityService.TrailingLetterRangeAlwaysFails | ontology-and-lifting/src/main/java/com/ibm/wh/extractionservice/externalentity/ExternalEntityService.java:123-139 | every start code that ends, but does not start, with a letter is refused |
| ExternalEntityService.TrailingLetterRangeExample | ontology-and-lifting/src/main/java/com/ibm/wh/extractionservice/externalentity/ExternalEntityService.java:123-139 | the range "100A" to "200A" is refused |
| ExternalEntityService.GetRangeBoundsCorrected | ontology-and-lifting/src/main/java/com/ibm/wh/extractionservice/externalentity/ExternalEntityService.java:123-131 | the intended check still yields only ascending int bounds |
| ExternalEntityService.CorrectedAcceptsTrailingLetterRange | ontology-and-lifting/src/main/java/com/ibm/wh/extractionservice/externalentity/ExternalEntityService.java:123-131 | with the intended check, digits followed by a shared letter form a range with that letter as postfix when the numbers ascend |
| ExternalEntityService.NumericPart | ontology-and-lifting/src/main/java/com/ibm/wh/extractionservice/externalentity/ExternalEntityService.java:157-162 | fails with an index error exactly when a letter range meets an empty claim value; after a prefix letter it is the rest of the value; without letters it is empty |
| ExternalEntityService.IsInRange | ontology-and-lifting/src/main/java/com/ibm/wh/extractionservice/externalentity/ExternalEntityService.java:153-173 | an entity without claim value, or any entity in a range without letters, is not in range; errors are index errors on an empty claim value or number-format errors |
| ExternalEntityService.LeadingLetterMembership | ontology-and-lifting/src/main/java/com/ibm/wh/extractionservice/externalentity/ExternalEntityService.java:153-173 | in a leading-letter range an entity is in range exactly when its claim value is that letter followed by digits whose value lies within the bounds |
| ExternalEntityService.NumericRangeMatchesNothing | ontology-and-lifting/src/main/java/com/ibm/wh/extractionservice/externalentity/ExternalEntityService.java:157-169 | a range without letters contains no entity |
| ExternalEntityService.NumericRangeExample | ontology-and-lifting/src/main/java/com/ibm/wh/extractionservice/externalentity/ExternalEntityService.java:157-169 | an individual with claim value "150" is not in the range 100 to 200 |
| ExternalEntityService.IsInRangeCorrected | ontology-and-lifting/src/main/java/com/ibm/wh/extractionservice/externalentity/ExternalEntityService.java:153-173 | agrees with isInRange on every range that has a letter |
| ExternalEntityService.CorrectedNumericMembership | ontology-and-lifting/src/main/java/com/ibm/wh/extractionservice/externalentity/ExternalEntityService.java:157-169 | once corrected, a numeric claim value is in a numeric range exactly when its value lies within the bounds |
| ExternalEntityService.CorrectedNumericRangeExample | ontology-and-lifting/src/main/java/com/ibm/wh/extractionservice/externalentity/ExternalEntityService.java:157-169 | once corrected, the claim value "150" is in the range 100 to 200 |
| ExternalEntityService.GetRange | ontology-and-lifting/src/main/java/com/ibm/wh/extractionservice/externalentity/ExternalEntityService.java:105-151 | a validation error is passed on; otherwise it fails exactly when isInRange fails on some stored individual, and on success holds exactly the stored individuals in range |
| ExternalEntityService.GetRangeErrorHasACause | ontology-and-lifting/src/main/java/com/ibm/wh/extractionservice/externalentity/ExternalEntityService.java:141-151 | the error reported is the error isInRange raised on some stored individual |
| ExternalEntityService.NumericCodesSelectNothing | ontology-and-lifting/src/main/java/com/ibm/wh/extractionservice/externalentity/ExternalEntityService.java:133-151 | two valid codes without letters select no entity at all |
| ExternalEntityService.RangeEntities | ontology-and-lifting/src/main/java/com/ibm/wh/extractionservice/externalentity/ExternalEntityService.java:179-185 | fails exactly when getRange fails on the trimmed, upper-cased codes; otherwise only stored individuals |
| ExternalEntityService.RangeEntitiesIgnoreCase | ontology-and-lifting/src/main/java/com/ibm/wh/extractionservice/externalentity/ExternalEntityService.java:179-185 | range codes are compared without regard to letter case |
| ExternalEntityService.GetEntity | ontology-and-lifting/src/main/java/com/ibm/wh/extractionservice/externalentity/ExternalEntityService.java:56-59 | succeeds exactly when the procedure code id is stored with an INDIVIDUAL entity, which it returns; a missing id is an illegal argument and another entity type a class-cast error |
| ExternalEntityService.GetEntityIgnoresCaseAndPadding | ontology-and-lifting/src/main/java/com/ibm/wh/extractionservice/externalentity/ExternalEntityService.java:56-59 | the lookup does not depend on the case of the namespace nor on the case and padding of the code |
| ExternalEntityService.GroupMember | ontology-and-lifting/src/main/java/com/ibm/wh/extractionservice/externalentity/ExternalEntityService.java:175-177 | a SINGLE candidate value carrying only the entity id |
| ExternalEntityService.MembersOf | ontology-and-lifting/src/main/java/com/ibm/wh/extractionservice/externalentity/ExternalEntityService.java:80-83 | every member is a SINGLE candidate value naming one of the individuals by its stored id, and every individual has its member |
| ExternalEntityService.SurfaceFormsOfAll | ontology-and-lifting/src/main/java/com/ibm/wh/extractionservice/externalentity/ExternalEntityService.java:84-85 | a surface form is in the union exactly when some individual has it |
| ExternalEntityService.GroupName | ontology-and-lifting/src/main/java/com/ibm/wh/extractionservice/externalentity/ExternalEntityService.java:87-93 | a null id is a null-pointer error; a non-empty id is kept; an empty id becomes the namespace followed by a name without spaces made only of kept characters and underscores |
| ExternalEntityService.GroupEntityOf | ontology-and-lifting/src/main/java/com/ibm/wh/extractionservice/externalentity/ExternalEntityService.java:95-97 | the group entity has type GROUP, the members and surface forms of the individuals, the configured types, display name, description and tag, and the computed group name as entity id |
| ExternalEntityService.ItemEntities | ontology-and-lifting/src/main/java/com/ibm/wh/extractionservice/externalentity/ExternalEntityService.java:64-78 | a single code adds exactly its stored individual or fails as getEntity does; a range fails exactly when rangeEntities fails; an item without type adds nothing; only stored individuals are added |
| ExternalEntityService.ProposedFrom | ontology-and-lifting/src/main/java/com/ibm/wh/extractionservice/externalentity/ExternalEntityService.java:64-78 | the proposed members of a group addition, or the first failure; stated by `ProposedFromIndividuals`, `ProposedFromFailure`, `ProposedFromFirstError` and `ProposedFromFailsOnItem` |
| ExternalEntityService.ProposedFromIndividuals | ontology-and-lifting/src/main/java/com/ibm/wh/extractionservice/externalentity/ExternalEntityService.java:64-78 | collecting keeps what was already collected and adds only stored individuals |
| ExternalEntityService.ProposedFromFailure | ontology-and-lifting/src/main/java/com/ibm/wh/extractionservice/externalentity/ExternalEntityService.java:64-78 | collecting fails exactly when some proposed member fails, and with the error of the first one that does |
| ExternalEntityService.ProposedFromFirstError | ontology-and-lifting/src/main/java/com/ibm/wh/extractionservice/externalentity/ExternalEntityService.java:64-78 | a failed collection reports the error of the first failing proposed member, all earlier ones having succeeded |
| ExternalEntityService.ProposedFromFailsOnItem | ontology-and-lifting/src/main/java/com/ibm/wh/extractionservice/externalentity/ExternalEntityService.java:64-78 | one failing proposed member makes the whole collection fail |
| ExternalEntityService.GroupAdditionOf | ontology-and-lifting/src/main/java/com/ibm/wh/extractionservice/externalentity/ExternalEntityService.java:61-103 | the group and its members built from a group addition; stated by `ExternalEntityService.GroupAdditionMembers` and `MissingSingleCodeFails` |
| ExternalEntityService.GroupAdditionMembers | ontology-and-lifting/src/main/java/com/ibm/wh/extractionservice/externalentity/ExternalEntityService.java:61-103 | a successful addition yields a GROUP entity whose members are exactly the candidate values of the collected stored individuals and whose surface forms are theirs together |
| ExternalEntityService.MissingSingleCodeFails | ontology-and-lifting/src/main/java/com/ibm/wh/extractionservice/externalentity/ExternalEntityService.java:65-71 | a proposed single code that is not stored makes the whole addition fail |
| ExternalEntityService.ProcessGroupAddition | ontology-and-lifting/src/main/java/com/ibm/wh/extractionservice/externalentity/ExternalEntityService.java:61-103 | fails exactly when the specification of the addition fails, with the same error; otherwise returns its group and a list holding exactly its individuals with repeats |
| ExternalEntityService.AddItem | ontology-and-lifting/src/main/java/com/ibm/wh/extractionservice/externalentity/ExternalEntityService.java:64-78 | fails exactly as the proposed member does; otherwise appends exactly that member's individuals to the list |
| ExternalEntityService.AppendAll | ontology-and-lifting/src/main/java/com/ibm/wh/extractionservice/externalentity/ExternalEntityService.java:75 | the list keeps its prefix and gains every element of the set once |
| ExternalEntityService.MemberEntries | ontology-and-lifting/src/main/java/com/ibm/wh/extractionservice/externalentity/ExternalEntityService.java:192 | the members cell with brackets removed and split at commas; stated by `ExternalEntityService.MemberEntriesOfSingleCode` |
| ExternalEntityService.MemberEntriesOfSingleCode | ontology-and-lifting/src/main/java/com/ibm/wh/extractionservice/externalentity/ExternalEntityService.java:192 | a members cell without brackets or commas is one member code |
| ExternalEntityService.CollectEntries | ontology-and-lifting/src/main/java/com/ibm/wh/extractionservice/externalentity/ExternalEntityService.java:199-212 | the stored individuals named by the entries, or the first failure; stated by its own ensures and by `CollectEntriesCovers` and `CollectEntriesWithin` |
| ExternalEntityService.EntryEntities | ontology-and-lifting/src/main/java/com/ibm/wh/extractionservice/externalentity/ExternalEntityService.java:200-211 | a code without dash succeeds exactly when getEntity does and stands for that one individual; a dash without two parts is an index error; only stored individuals result |
| ExternalEntityService.CollectEntriesCovers | ontology-and-lifting/src/main/java/com/ibm/wh/extractionservice/externalentity/ExternalEntityService.java:199-212 | a successful row needs every member code to succeed and holds the individuals of each |
| ExternalEntityService.CollectEntriesWithin | ontology-and-lifting/src/main/java/com/ibm/wh/extractionservice/externalentity/ExternalEntityService.java:199-212 | the individuals of each member code lie within any bound on the whole visit |
| ExternalEntityService.GroupFromCsvLine | ontology-and-lifting/src/main/java/com/ibm/wh/extractionservice/externalentity/ExternalEntityService.java:187-225 | a row shorter than seven cells is an index error; a group takes description, display name, entity id, tag and type from its cells and has only SINGLE members naming stored individuals |
| ExternalEntityService.GroupFromCsvLineSingleCode | ontology-and-lifting/src/main/java/com/ibm/wh/extractionservice/externalentity/ExternalEntityService.java:187-225 | a row naming one stored individual's code makes a group with exactly that member and that individual's surface forms |
| ExternalEntityService.GroupsOfLines | ontology-and-lifting/src/main/java/com/ibm/wh/extractionservice/externalentity/ExternalEntityService.java:235-237 | one group per CSV line; stated by `ExternalEntityService.GroupsOfLinesEachLine` and `GroupsOfLinesContents` |
| ExternalEntityService.GroupsOfLinesEachLine | ontology-and-lifting/src/main/java/com/ibm/wh/extractionservice/externalentity/ExternalEntityService.java:235-237 | a successful import needs every row to make a group |
| ExternalEntityService.GroupsOfLinesContents | ontology-and-lifting/src/main/java/com/ibm/wh/extractionservice/externalentity/ExternalEntityService.java:235-237 | the import keeps the groups already built and adds exactly the groups of the rows |
| ExternalEntityService.ImportGroups | ontology-and-lifting/src/main/java/com/ibm/wh/extractionservice/externalentity/ExternalEntityService.java:228-242 | a missing or wrong header row is a wrapped illegal argument, and every error is wrapped as a CSV parsing error |
| ExternalEntityService.ImportGroupsContents | ontology-and-lifting/src/main/java/com/ibm/wh/extractionservice/externalentity/ExternalEntityService.java:228-242 | a successful import has the exact header and holds exactly the groups of the rows after it, each row having made one |
| ExternalEntityService.LineGroupsAfterHeader | ontology-and-lifting/src/main/java/com/ibm/wh/extractionservice/externalentity/ExternalEntityService.java:235-237 | the groups of the rows after the header are those of the rows from index one on |
| ExternalEntityService.ProcessGroupAdditionCsv | ontology-and-lifting/src/main/java/com/ibm/wh/extractionservice/externalentity/ExternalEntityService.java:228-242 | the imperative import returns exactly the specified import, error included |
| CandidateValues.GroupExternalEntitiesIds | ontology-and-lifting/src/main/java/com/ibm/wh/extractionservice/conditiontemplate/value/CandidateValueRepository.java:33-38 | an id is in the set exactly when some stored GROUP entity has it as entity id |
| CandidateValues.NewCandidateValueRepository | ontology-and-lifting/src/main/java/com/ibm/wh/extractionservice/conditiontemplate/value/CandidateValueRepository.java:27-31 | the repository keeps the ontology and knows as group ids exactly the entity ids of the stored GROUP entities |
| CandidateValues.TypeOf | ontology-and-lifting/src/main/java/com/ibm/wh/extractionservice/conditiontemplate/value/CandidateValueRepository.java:74-80 | GROUP exactly when the URI is a group entity id, SINGLE otherwise, never EXTRACTED |
| CandidateValues.IndividualValue | ontology-and-lifting/src/main/java/com/ibm/wh/extractionservice/conditiontemplate/value/CandidateValueRepository.java:61-63 | the candidate value of an individual carries its URI and is never typed EXTRACTED |
| CandidateValues.FindById | ontology-and-lifting/src/main/java/com/ibm/wh/extractionservice/conditiontemplate/value/CandidateValueRepository.java:40-42 | a value is found exactly when the URI names an individual of the ontology, and it carries that URI |
| CandidateValues.ExtractedValue | ontology-and-lifting/src/main/java/com/ibm/wh/extractionservice/conditiontemplate/value/CandidateValueRepository.java:57-59 | an extracted entity becomes an EXTRACTED candidate value with the entity id as id |
| CandidateValues.FindInExtractedEntities | ontology-and-lifting/src/main/java/com/ibm/wh/extractionservice/conditiontemplate/value/CandidateValueRepository.java:50-55 | the only failure is the null-pointer on an entity without id; a found value is EXTRACTED and has the requested id |
| CandidateValues.FindByIdOrExtracted | ontology-and-lifting/src/main/java/com/ibm/wh/extractionservice/conditiontemplate/value/CandidateValueRepository.java:44-48 | any value found carries the requested id |
| CandidateValues.IndividualValueFields | ontology-and-lifting/src/main/java/com/ibm/wh/extractionservice/conditiontemplate/value/CandidateValueRepository.java:61-80 | an individual's label is its display name or else its local name; its claim value is its claim-value annotation or null; its type is GROUP iff its URI is a group id and SINGLE otherwise |
| CandidateValues.OntologyTakesPrecedence | ontology-and-lifting/src/main/java/com/ibm/wh/extractionservice/conditiontemplate/value/CandidateValueRepository.java:44-46 | an individual of the ontology is returned from the ontology whatever the extracted entities are, and is not EXTRACTED |
| CandidateValues.FirstMatchingEntityFound | ontology-and-lifting/src/main/java/com/ibm/wh/extractionservice/conditiontemplate/value/CandidateValueRepository.java:50-55 | the first extracted entity with the id is returned when every entity before it has a different non-null id |
| CandidateValues.NoMatchingEntity | ontology-and-lifting/src/main/java/com/ibm/wh/extractionservice/conditiontemplate/value/CandidateValueRepository.java:50-55 | with no matching id and no null id among the entities, nothing is found and nothing fails |
| CandidateValues.FallbackIsExtracted | ontology-and-lifting/src/main/java/com/ibm/wh/extractionservice/conditiontemplate/value/CandidateValueRepository.java:44-48 | a URI unknown to the ontology is looked up among the extracted entities only, and any hit is EXTRACTED |
| ConditionTemplates.InstanceValues | ontology-and-lifting/src/main/java/com/ibm/wh/extractionservice/conditiontemplate/ConditionTemplateRepository.java:141-146 | a candidate value is offered exactly when some instance of the class resolves to it; unresolved instances are dropped |
| ConditionTemplates.ClassCandidateValues | ontology-and-lifting/src/main/java/com/ibm/wh/extractionservice/conditiontemplate/ConditionTemplateRepository.java:139-147 | the only failure is running out of stack |
| ConditionTemplates.UnionCandidateValues | ontology-and-lifting/src/main/java/com/ibm/wh/extractionservice/conditiontemplate/ConditionTemplateRepository.java:149-156 | the only failure is running out of stack |
| ConditionTemplates.UnionCandidateValuesContents | ontology-and-lifting/src/main/java/com/ibm/wh/extractionservice/conditiontemplate/ConditionTemplateRepository.java:149-156 | a union succeeds exactly when every class operand does, and then offers exactly the values of its operands |
| ConditionTemplates.PlainClassCandidateValues | ontology-and-lifting/src/main/java/com/ibm/wh/extractionservice/conditiontemplate/ConditionTemplateRepository.java:139-147 | a class that is not a union offers exactly the values its resolvable instances resolve to |
| ConditionTemplates.RangeCandidateValues | ontology-and-lifting/src/main/java/com/ibm/wh/extractionservice/conditiontemplate/ConditionTemplateRepository.java:134-137 | no values for a property that is not an object property; an object property without a single range class is a missing element |
| ConditionTemplates.ToConditionTemplate | ontology-and-lifting/src/main/java/com/ibm/wh/extractionservice/conditiontemplate/ConditionTemplateRepository.java:117-127 | a datatype property gives free text; an object property gives a selection over its range's candidate values, single exactly when functional; any other property is an illegal state; id and display name come from the property |
| ConditionTemplates.UnionsWith | ontology-and-lifting/src/main/java/com/ibm/wh/extractionservice/conditiontemplate/ConditionTemplateRepository.java:106-115 | the union classes with the class as operand; stated by `ConditionTemplates.UnionsWithMembers` |
| ConditionTemplates.UnionsWithMembers | ontology-and-lifting/src/main/java/com/ibm/wh/extractionservice/conditiontemplate/ConditionTemplateRepository.java:106-115 | the unions with a class are exactly the union classes of the model having it among their operands |
| ConditionTemplates.TemplatesOfAll | ontology-and-lifting/src/main/java/com/ibm/wh/extractionservice/conditiontemplate/ConditionTemplateRepository.java:68-73 | the union of the templates of each class; stated by `TemplatesOfAllSucceeds`, `TemplatesOfAllContents` and `EachClassTemplatesIncluded` |
| ConditionTemplates.ClassTemplates | ontology-and-lifting/src/main/java/com/ibm/wh/extractionservice/conditiontemplate/ConditionTemplateRepository.java:75-104 | the templates of one class; stated by `ClassTemplatesAt`, `ClassTemplatesSteps`, `UnionTemplatesIncluded` and `SelfRangeOverflows` |
| ConditionTemplates.TemplatesOfAllSucceeds | ontology-and-lifting/src/main/java/com/ibm/wh/extractionservice/conditiontemplate/ConditionTemplateRepository.java:68-73 | deriving several classes succeeds exactly when each derivation does |
| ConditionTemplates.TemplatesOfAllContents | ontology-and-lifting/src/main/java/com/ibm/wh/extractionservice/conditiontemplate/ConditionTemplateRepository.java:68-73 | a successful union of derivations holds exactly the templates of its classes |
| ConditionTemplates.ClassTemplatesAt | ontology-and-lifting/src/main/java/com/ibm/wh/extractionservice/conditiontemplate/ConditionTemplateRepository.java:68-73 | the templates of each class are part of a successful union of derivations |
| ConditionTemplates.PropertyTemplates | ontology-and-lifting/src/main/java/com/ibm/wh/extractionservice/conditiontemplate/ConditionTemplateRepository.java:84-101 | the property loop; stated by `PropertyTemplatesSucceeds`, `PropertyTemplatesContents` and `AccumulatedKept` |
| ConditionTemplates.PropertyContribution | ontology-and-lifting/src/main/java/com/ibm/wh/extractionservice/conditiontemplate/ConditionTemplateRepository.java:84-101 | the template of a leaf property, or the templates of the range class of a non-leaf property; stated by `ContributionAt`, `LeafPropertyTemplateIncluded` and `NonLeafContribution` |
| ConditionTemplates.PropertyTemplatesSucceeds | ontology-and-lifting/src/main/java/com/ibm/wh/extractionservice/conditiontemplate/ConditionTemplateRepository.java:84-101 | the loop over the declared properties succeeds exactly when each property's contribution does |
| ConditionTemplates.PropertyTemplatesContents | ontology-and-lifting/src/main/java/com/ibm/wh/extractionservice/conditiontemplate/ConditionTemplateRepository.java:84-101 | a successful property loop holds exactly what it started from plus every contribution |
| ConditionTemplates.AccumulatedKept | ontology-and-lifting/src/main/java/com/ibm/wh/extractionservice/conditiontemplate/ConditionTemplateRepository.java:84-101 | the property loop keeps the templates of the unions it started from |
| ConditionTemplates.ContributionAt | ontology-and-lifting/src/main/java/com/ibm/wh/extractionservice/conditiontemplate/ConditionTemplateRepository.java:84-101 | each property's contribution is part of a successful property loop |
| ConditionTemplates.FindAll | ontology-and-lifting/src/main/java/com/ibm/wh/extractionservice/conditiontemplate/ConditionTemplateRepository.java:32-37 | the templates of the benefit-rule classes; stated by `ConditionTemplates.FindAllIsUnion` |
| ConditionTemplates.FindAllIsUnion | ontology-and-lifting/src/main/java/com/ibm/wh/extractionservice/conditiontemplate/ConditionTemplateRepository.java:32-37 | findAll holds the templates of each benefit-rule class and nothing else |
| ConditionTemplates.ClassTemplatesSteps | ontology-and-lifting/src/main/java/com/ibm/wh/extractionservice/conditiontemplate/ConditionTemplateRepository.java:75-104 | a successful derivation first derives the unions holding the class, then runs the property loop from their templates |
| ConditionTemplates.UnionsKept | ontology-and-lifting/src/main/java/com/ibm/wh/extractionservice/conditiontemplate/ConditionTemplateRepository.java:77-101 | the templates gathered from the unions survive the property loop into the derivation |
| ConditionTemplates.UnionTemplatesIncluded | ontology-and-lifting/src/main/java/com/ibm/wh/extractionservice/conditiontemplate/ConditionTemplateRepository.java:77-80 | the templates of every union holding the class are in its derivation |
| ConditionTemplates.ContributionIncluded | ontology-and-lifting/src/main/java/com/ibm/wh/extractionservice/conditiontemplate/ConditionTemplateRepository.java:82-101 | the contribution of every declared property is in the derivation |
| ConditionTemplates.LeafPropertyTemplateIncluded | ontology-and-lifting/src/main/java/com/ibm/wh/extractionservice/conditiontemplate/ConditionTemplateRepository.java:85-86 | the template of every declared leaf property is in the derivation |
| ConditionTemplates.NonLeafContribution | ontology-and-lifting/src/main/java/com/ibm/wh/extractionservice/conditiontemplate/ConditionTemplateRepository.java:87-99 | a non-leaf property contributes its single range's templates, or each class operand's when the range is a union; without a range class it is a missing element |
| ConditionTemplates.NonLeafPropertyAddsRange | ontology-and-lifting/src/main/java/com/ibm/wh/extractionservice/conditiontemplate/ConditionTemplateRepository.java:87-99 | a declared non-leaf property has a range class, and a range that is not a union has its templates in the derivation |
| ConditionTemplates.NonLeafPropertyAddsOperands | ontology-and-lifting/src/main/java/com/ibm/wh/extractionservice/conditiontemplate/ConditionTemplateRepository.java:90-96 | when a non-leaf property's range is a union, the templates of each class operand are in the derivation |
| ConditionTemplates.EachClassTemplatesIncluded | ontology-and-lifting/src/main/java/com/ibm/wh/extractionservice/conditiontemplate/ConditionTemplateRepository.java:68-73 | the templates of each class lie within any bound on the union of derivations |
| ConditionTemplates.TemplateOrigin | ontology-and-lifting/src/main/java/com/ibm/wh/extractionservice/conditiontemplate/ConditionTemplateRepository.java:75-104 | every derived template comes from a union holding the class or from one of its declared properties |
| ConditionTemplates.SelfRangeOverflows | ontology-and-lifting/src/main/java/com/ibm/wh/extractionservice/conditiontemplate/ConditionTemplateRepository.java:75-104 | without a visited set, a class whose first declared property is an object property ranging over the class itself overflows the stack at every depth |
| ConditionTemplates.AnnotationValue | ontology-and-lifting/src/main/java/com/ibm/wh/extractionservice/conditiontemplate/ConditionTemplateRepository.java:54-57 | the candidate value of an object-property value has its URI as id, or a null id when the value is a blank node, its display name or "" as label, no claim value and type SINGLE |
| ConditionTemplates.TagValues | ontology-and-lifting/src/main/java/com/ibm/wh/extractionservice/conditiontemplate/ConditionTemplateRepository.java:53-58 | the tag's values are exactly the candidate values of the class's object-property values |
| ConditionTemplates.RuleTag | ontology-and-lifting/src/main/java/com/ibm/wh/extractionservice/conditiontemplate/ConditionTemplateRepository.java:50-63 | a single-selection template identified by the class with its display name or ""; it fails exactly when collecting the object properties does |
| ConditionTemplates.RuleTags | ontology-and-lifting/src/main/java/com/ibm/wh/extractionservice/conditiontemplate/ConditionTemplateRepository.java:50-64 | one rule tag per benefit-rule class; stated by `RuleTagsSucceeds`, `RuleTagsContents` and `OneTagPerBenefitRuleClass` |
| ConditionTemplates.RuleTagsSucceeds | ontology-and-lifting/src/main/java/com/ibm/wh/extractionservice/conditiontemplate/ConditionTemplateRepository.java:50-64 | the tags are collected exactly when every class's tag is |
| ConditionTemplates.RuleTagsContents | ontology-and-lifting/src/main/java/com/ibm/wh/extractionservice/conditiontemplate/ConditionTemplateRepository.java:50-64 | the tags collected are the starting set plus the tag of each class |
| ConditionTemplates.OneTagPerBenefitRuleClass | ontology-and-lifting/src/main/java/com/ibm/wh/extractionservice/conditiontemplate/ConditionTemplateRepository.java:46-66 | one single-selection template per benefit-rule class, identified by that class, and nothing else |
| ConditionTemplates.AnnotationValues | ontology-and-lifting/src/main/java/com/ibm/wh/extractionservice/conditiontemplate/ConditionTemplateRepository.java:53-58 | the inner loop builds exactly the tag's candidate values |
| ConditionTemplates.FindAnnotationRuleTags | ontology-and-lifting/src/main/java/com/ibm/wh/extractionservice/conditiontemplate/ConditionTemplateRepository.java:46-66 | the loop over the benefit-rule classes returns exactly the specified tags, error included |
| JavaStrings.Trim | ontology-and-lifting/src/main/java/com/ibm/wh/extractionservice/externalentity/lifting/LiftingService.java:128 | `String.trim`: no longer than its input, and a non-empty result starts and ends with a character above the space; `JavaStrings.TrimIdempotent` states that trimming twice is trimming once |
| JavaStrings.TrimIdempotent | ontology-and-lifting/src/main/java/com/ibm/wh/extractionservice/support/NlpUtils.java:66 | trimming a trimmed string changes nothing |
| JavaStrings.Replace | ontology-and-lifting/src/main/java/com/ibm/wh/extractionservice/ontology/normalisation/SymbolsNormalisation.java:26-29 | `String.replace` of every non-overlapping occurrence from left to right; stated by `JavaStrings.ReplaceAbsent` and the `SymbolsNormalisation` rows |
| JavaStrings.ReplaceAbsent | ontology-and-lifting/src/main/java/com/ibm/wh/extractionservice/ontology/normalisation/SymbolsNormalisation.java:26-29 | a string that lacks one of the pattern's characters is left unchanged |
| JavaStrings.Split | ontology-and-lifting/src/main/java/com/ibm/wh/extractionservice/support/jena/Models.java:70 | `String.split` at a literal delimiter with trailing empty pieces dropped; a string without the delimiter is its own single piece |
| JavaStrings.Format | ontology-and-lifting/src/main/java/com/ibm/wh/extractionservice/externalentity/lifting/LiftingService.java:278 | `String.format` with `%s` slots succeeds exactly when there are at least as many arguments as slots, and otherwise fails with a missing-argument error |
| JavaStrings.ParseInt | ontology-and-lifting/src/main/java/com/ibm/wh/extractionservice/externalentity/ExternalEntityService.java:133-134 | `Integer.parseInt`: a result lies within the int range; a failure is a number-format error; on digits it succeeds exactly when the value fits, and gives that value |
| JavaStrings.IsNumeric | ontology-and-lifting/src/main/java/com/ibm/wh/extractionservice/externalentity/ExternalEntityService.java:163 | `StringUtils.isNumeric`: a non-empty string of digits; the `ParseInt` row states how it bounds parsing |
| JavaStrings.CompareTo | ontology-and-lifting/src/main/java/com/ibm/wh/extractionservice/support/jena/Models.java:89-91 | `String.compareTo`: stated by `CompareToZeroIff`, `CompareToAntisymmetric` and `CompareToTransitive` |
| JavaStrings.CompareToZeroIff | ontology-and-lifting/src/main/java/com/ibm/wh/extractionservice/support/jena/Models.java:89-91 | two strings compare as zero exactly when they are equal |
| JavaStrings.CompareToAntisymmetric | ontology-and-lifting/src/main/java/com/ibm/wh/extractionservice/support/jena/Models.java:89-91 | swapping the arguments negates the comparison |
| JavaStrings.CompareToTransitive | ontology-and-lifting/src/main/java/com/ibm/wh/extractionservice/support/jena/Models.java:89-91 | less-than is transitive |
| SubgraphExtraction.Successors | ontology-and-lifting/src/main/java/com/ibm/wh/extractionservice/support/jena/SubgraphExtractor.java:62-90 | the resources a statement leads to; stated by `SubgraphExtraction.SuccessorsMembers` |
| SubgraphExtraction.SuccessorsMembers | ontology-and-lifting/src/main/java/com/ibm/wh/extractionservice/support/jena/SubgraphExtractor.java:62-90 | the resources a statement offers to the queue are exactly its reifiers when reified statements are included and, unless the boundary stops it, its predicate and its resource object |
| SubgraphExtraction.StatementsWithSubject | ontology-and-lifting/src/main/java/com/ibm/wh/extractionservice/support/jena/SubgraphExtractor.java:57 | the statements about the resource; stated by `SubgraphExtraction.StatementsWithSubjectMembers` |
| SubgraphExtraction.StatementsWithSubjectMembers | ontology-and-lifting/src/main/java/com/ibm/wh/extractionservice/support/jena/SubgraphExtractor.java:57 | the statements listed for a resource are exactly the graph's statements about it |
| SubgraphExtraction.EnqueueNew | ontology-and-lifting/src/main/java/com/ibm/wh/extractionservice/support/jena/SubgraphExtractor.java:66-70 | offering resources to the queue appends, in order and once each, exactly the ones whose identifier was not visited, and marks every offered identifier visited |
| SubgraphExtraction.EnqueueStep | ontology-and-lifting/src/main/java/com/ibm/wh/extractionservice/support/jena/SubgraphExtractor.java:62-90 | queueing the unvisited successors of a statement about a queued resource keeps the root first, identifiers distinct and equal to the visited ones, and every queued resource inside each closed set |
| SubgraphExtraction.PollStep | ontology-and-lifting/src/main/java/com/ibm/wh/extractionservice/support/jena/SubgraphExtractor.java:55-60 | after a polled resource's statements are followed, the new model holds the statements about every dequeued resource and all their successors are visited |
| SubgraphExtraction.FrontierStart | ontology-and-lifting/src/main/java/com/ibm/wh/extractionservice/support/jena/SubgraphExtractor.java:48-53 | the walk starts with the root queued and visited and nothing copied |
| SubgraphExtraction.FrontierPoll | ontology-and-lifting/src/main/java/com/ibm/wh/extractionservice/support/jena/SubgraphExtractor.java:56-57 | the statements about the polled resource are statements of the graph about a queued resource |
| SubgraphExtraction.FrontierStep | ontology-and-lifting/src/main/java/com/ibm/wh/extractionservice/support/jena/SubgraphExtractor.java:55-91 | one poll keeps the walk's state, and either visits a new identifier or shortens the queue |
| SubgraphExtraction.FrontierDone | ontology-and-lifting/src/main/java/com/ibm/wh/extractionservice/support/jena/SubgraphExtractor.java:55-95 | a walk whose queue is empty has delivered an extraction |
| SubgraphExtraction.FollowStatements | ontology-and-lifting/src/main/java/com/ibm/wh/extractionservice/support/jena/SubgraphExtractor.java:59-91 | every statement about the polled resource is copied into the new model and everything it leads to is visited, the queue invariant kept |
| SubgraphExtraction.Extract | ontology-and-lifting/src/main/java/com/ibm/wh/extractionservice/support/jena/SubgraphExtractor.java:47-96 | the dequeued resources start with the root, carry distinct identifiers, are closed up to identifiers and lie in every closed set; the new model holds exactly the statements about them |
| SubgraphExtraction.ExtractAtReifiedSources | ontology-and-lifting/src/main/java/com/ibm/wh/extractionservice/support/jena/SubgraphExtractor.java:43-45 | the overloads without a boundary extract with the reified-statement-source boundary |
| SubgraphExtraction.ExtractIgnoringBoundary | ontology-and-lifting/src/main/java/com/ibm/wh/extractionservice/support/jena/SubgraphExtractor.java:106-108 | the overload taking a boundary extracts with the reified-statement-source boundary whatever boundary it is given |
| SubgraphExtraction.GraphResourcesClosed | ontology-and-lifting/src/main/java/com/ibm/wh/extractionservice/support/jena/SubgraphExtractor.java:47-96 | the root with every resource a statement leads to is a closed set |
| SubgraphExtraction.ExtractedIsLeastClosed | ontology-and-lifting/src/main/java/com/ibm/wh/extractionservice/support/jena/SubgraphExtractor.java:47-96 | with unambiguous identifiers the dequeued resources are closed, hence exactly the resources reachable from the root |
| SubgraphExtraction.ExtractionDeterministic | ontology-and-lifting/src/main/java/com/ibm/wh/extractionservice/support/jena/SubgraphExtractor.java:47-96 | with unambiguous identifiers every extraction dequeues the same resources and yields the same model |
| SubgraphExtraction.StopsAtBoundary | ontology-and-lifting/src/main/java/com/ibm/wh/extractionservice/support/jena/SubgraphExtractor.java:73-90 | when the boundary stops every statement about the root and none is followed to a reifier, only the root is dequeued and exactly its statements are copied |
| SubgraphExtraction.ReifiedOnlyWhenIncluded | ontology-and-lifting/src/main/java/com/ibm/wh/extractionservice/support/jena/SubgraphExtractor.java:62-71 | without includeReified the reifications of the graph make no difference to the extraction |
| SubgraphExtraction.BoundaryIgnored | ontology-and-lifting/src/main/java/com/ibm/wh/extractionservice/support/jena/SubgraphExtractor.java:106-108 | asked to stop nowhere, the boundary-taking overload still misses a statement that an extraction honouring the boundary copies |

## Left out

- Reading files. The repository's JSON loading (Jackson) and the tokenising of CSV input (OpenCSV) are not modelled. The repository receives the entities of all files as one sequence; the lifting service and the group CSV import receive their rows as `seq<seq<string>>`.
- Creation timestamps (`Instant.now()`). Entity equality does not read them.
- Logging, and the wording of exception messages. A failure records only the kind of exception.
- Jena and OpenCSV internals. The ontology graph and the RDF statements are abstract values. Graph queries return their results in the model's listing order.
- Reasoning and loading. Superclass closures, union operands and instances are given, not computed.
- Percent-encoding. `Rdf.SplitNamespaceXml` splits a URI at the last character that cannot occur in an XML name. It ignores Jena's special cases for percent-encoded characters.
- Unicode. Case mapping, `Character.isLetter`/`isDigit`, `StringUtils.isNumeric` and `trim` cover ASCII only. Other characters are kept unchanged or counted as neither letter nor digit.
- Format strings. `String.format` is modelled for `%s` slots only, which is the only conversion the formatters use.
- `NlpUtils.isNumeric`: it parses floating point (`Double.parseDouble`), which is not modelled.
- `SymbolsNormalisation.apply` and `NormalisationStage`: they rewrite Jena statements in place. Only the string rewriting `normalise` is modelled.
- The remaining `Models` helpers (copy, delete, subgraph test, JSON-LD, hashing, `sortByUri`). They are Jena model internals.
- `DomainOntology.getAllClassesOfInterestForExtraction`, `getCompatiblePropertyWithRange` and `getAllPropertiesWithDefaultValues`: these are outside the modelled core. Because of the last one, `ConditionTemplateRepository.findAllDefaultValues` is not modelled either.
- `SubgraphExtractor.statementBoundary`: it only wraps a predicate, and a boundary is already a predicate on statements.
- Thin delegations of `ExternalEntityService` to the repository: `findAllEntities`, `findAllEntitiesOfType`, `findAllGroupEntities`, `toGroupEntity` and `findEntityByEntityId`. Their behaviour is that of `ExternalEntityFilesRepository.FindAll`, `FindByType` and `FindByEntityId`.
- Nulls the code never checks are plain values. For codes, CSV cells and proposed-member lists the Java code would throw a NullPointerException on a null. The group configuration's `typesId`, which Jackson leaves null when it is absent, is passed unchecked into the new group as its type ids (ExternalEntityService.java:95); the model takes it as a set, so a group with null type ids does not arise.
- LiftingService.ExternalEntityParser.ParseEntityTypes: requires the mapping to have a type. Java would put null into the type set (LiftingService.java:239), but `parse` calls it only after `parseEntityId`, which has already thrown a NullPointerException on a null type when it generates the URI from the type's local name (LiftingService.java:235, Models.java:671).
- Unreachable branches. The `default` branch of `Transformation.apply` and the unsupported-entity-type branch of the entity parser cannot be reached with the enums as declared, so they are not modelled. The `index == -1` branch of the column lookup is not modelled for the same reason: the header map's `get` gives null and the caught NullPointerException already yields the empty value.
- ConditionTemplates.ClassTemplates, Ontology.IsLeafClass, ConditionTemplates.ClassCandidateValues: the depth of the JVM stack is a `fuel` parameter, and running out of it is a `StackOverflow` failure. The real stack size is not modelled.
- Ontology.RangeClassesMembers: classes are named by their URI, so only named classes are modelled as range classes. An anonymous class, the usual form of a union range, has a null namespace. When such a class is tested against the namespace, `getNameSpace().equalsIgnoreCase(...)` throws a NullPointerException (OntModelAdapter.java:569). That call is reached from DomainOntology.java:365, 420 and 551 and from ConditionTemplateRepository.java:88 and 136. The model has no such failure.
- Ontology.SingleRangeClass: Jena returns an arbitrary element of a hash set when there are several range classes. The model returns the first in listing order, and the contract promises only some range class. As for `RangeClassesMembers`, only named range classes are modelled, so the NullPointerException on an anonymous range class is absent.
- ExternalEntityService.GetRange: when several stored individuals make `isInRange` throw, which exception is reported depends on hash-set order. The model reports an index error before a number-format error. Its contract promises only that the error is one of them (`GetRangeErrorHasACause`).
- ExternalEntityService.ProcessGroupAddition: the order of the individuals appended for a range depends on hash-set iteration. The contract states the list's contents with repeats (a multiset), not its order.
- ExternalEntityService.AppendAll: `addAll` of a hash set appends in an order the model leaves open. The contract states that the original list is a prefix and gives the appended elements' multiset.
- SubgraphExtraction.Extract: the dequeued resources and the copied statements are stated exactly. The order of the queue is stated only through the invariant that the root comes first.

## Findings

| source | as written | input that shows it | evidently intended | confidence | as-written member | corrected member |
|---|---|---|---|---|---|---|
| ontology-and-lifting/src/main/java/com/ibm/wh/extractionservice/support/NlpUtils.java:38-50 | `isInteger` accepts any digit string, but `integerValueOf` parses it with `Integer.valueOf`, which overflows past 2147483647 | "2147483648" | `isInteger` holds exactly when `integerValueOf` succeeds | not executed | NlpUtils.IsIntegerOverflow | NlpUtils.IsIntegerCorrectedAgrees |
| ontology-and-lifting/src/main/java/com/ibm/wh/extractionservice/support/NlpUtils.java:43-50 | `isInteger` cleans the text and then `textToInteger` cleans it again, while `integerValueOf` cleans once | " (two) " | both clean the text once, so they agree | not executed | NlpUtils.IsIntegerDoubleCleaning | NlpUtils.IsIntegerCorrectedAgrees |
| ontology-and-lifting/src/main/java/com/ibm/wh/extractionservice/externalentity/ExternalEntityService.java:123-139 | for codes ending with a letter, the parts before the letter must be equal, so the two numbers are equal and the order check refuses the range | "100A" to "200A" | the trailing letters must agree and the numbers before them must ascend | not executed | ExternalEntityService.TrailingLetterRangeExample | ExternalEntityService.CorrectedAcceptsTrailingLetterRange |
| ontology-and-lifting/src/main/java/com/ibm/wh/extractionservice/externalentity/ExternalEntityService.java:157-169 | with no letter prefix or postfix the numeric part stays "", which is not numeric, so no entity is in a numeric range | claim value "150", range 100 to 200 | the whole claim value is the number | not executed | ExternalEntityService.NumericRangeExample | ExternalEntityService.CorrectedNumericRangeExample |
| ontology-and-lifting/src/main/java/com/ibm/wh/extractionservice/support/jena/SubgraphExtractor.java:106-108 | the overload taking a boundary passes STOP_AT_REIFIED_STATEMENT_SOURCE instead of its argument | STOP_NOWHERE_BOUNDARY on a graph where urn:a reaches urn:b only through rdf:subject | the given boundary is used | not executed | SubgraphExtraction.BoundaryIgnored | SubgraphExtraction.Extract |
