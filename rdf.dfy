/**
 * The RDF vocabulary the modelled code works on: resources (named or
 * blank), literal values, statements, and the split of a URI into
 * namespace and local name used by Jena's getNameSpace and getLocalName.
 * Jena itself (models, reasoning, the XML character tables) is not part
 * of this model: name characters are ASCII only.
 */
module Rdf {
  import opened Wrappers
  import opened JavaStrings

  datatype Resource = UriResource(uri: string) | BlankNode(blankId: string)
  {
    predicate IsAnon() { BlankNode? }

    /** The identifier used for visited sets: the blank-node id or the URI. */
    function Identifier(): string
    {
      match this
      case UriResource(u) => u
      case BlankNode(b) => b
    }
  }

  datatype Node = ResourceNode(resource: Resource) | Literal(lexicalForm: string)

  datatype Statement = Statement(subject: Resource, predicateUri: string, objectNode: Node)

  /** Characters that may occur in an XML NCName (ASCII). */
  predicate IsNCNameChar(c: char)
  {
    IsLetter(c) || IsDigit(c) || c == '.' || c == '-' || c == '_'
  }

  /** Characters that may start an XML NCName (ASCII). */
  predicate IsNCNameStart(c: char)
  {
    IsLetter(c) || c == '_'
  }

  /** The index after the last non-name character scanning back from the end, never below 1. */
  function ScanBack(uri: string, i: nat): (j: nat)
    requires 1 <= i < |uri|
    ensures 1 <= j <= i + 1
    ensures forall k :: j <= k <= i ==> IsNCNameChar(uri[k])
    ensures j > 1 ==> !IsNCNameChar(uri[j - 1])
  {
    if !IsNCNameChar(uri[i]) then i + 1
    else if i == 1 then 1
    else ScanBack(uri, i - 1)
  }

  /** The first index from `j` on that holds a name start character, or the length. */
  function ScanForward(uri: string, j: nat): (r: nat)
    requires j <= |uri|
    ensures j <= r <= |uri|
    ensures r < |uri| ==> IsNCNameStart(uri[r])
    ensures forall k :: j <= k < r ==> !IsNCNameStart(uri[k])
    decreases |uri| - j
  {
    if j == |uri| then j
    else if IsNCNameStart(uri[j]) then j
    else ScanForward(uri, j + 1)
  }

  /**
   * Util.splitNamespaceXML without its %-encoding and mailto rules: the
   * local name is the longest suffix of name characters (never including
   * the first character) that starts with a name start character.
   */
  function SplitNamespaceXml(uri: string): (r: nat)
    ensures r <= |uri|
    ensures forall k :: r <= k < |uri| ==> IsNCNameChar(uri[k])
    ensures r < |uri| ==> IsNCNameStart(uri[r])
  {
    if |uri| <= 1 then |uri|
    else
      var j := ScanBack(uri, |uri| - 1);
      if j >= |uri| then |uri| else ScanForward(uri, j)
  }

  /** Models.getLocalName / Resource.getLocalName. */
  function LocalName(uri: string): (r: string)
    ensures forall k :: 0 <= k < |r| ==> IsNCNameChar(r[k])
    ensures |r| > 0 ==> IsNCNameStart(r[0])
  {
    uri[SplitNamespaceXml(uri)..]
  }

  /** Resource.getNameSpace. */
  function Namespace(uri: string): (r: string)
    ensures r + LocalName(uri) == uri
  {
    uri[..SplitNamespaceXml(uri)]
  }
}
