/**
 * The plain records of the condition-template layer: candidate values and
 * the three kinds of condition template. Java's equals on these classes
 * compares every field, which is Dafny's structural equality.
 */
module ConditionTemplateValues {
  import opened Wrappers

  datatype CandidateValueType = SINGLE | GROUP | EXTRACTED

  /**
   * A value a condition may take: its URI or entity id (null for a blank
   * node, whose getURI() is null), label (the Java field `label`), claim
   * value and kind.
   */
  datatype CandidateValue = CandidateValue(
    id: Option<string>,
    labelText: Option<string>,
    claimValue: Option<string>,
    valueType: CandidateValueType)

  /**
   * FreeText, SingleSelection and MultipleSelection condition templates.
   * Two selection templates are equal only if their candidate values are.
   */
  datatype ConditionTemplate =
    | FreeText(id: string, displayName: string)
    | SingleSelection(id: string, displayName: string, candidateValues: set<CandidateValue>)
    | MultipleSelection(id: string, displayName: string, candidateValues: set<CandidateValue>)
}
