/**
 * The RDF serialisation syntaxes and their names, as used to choose a
 * reader or writer.
 */
module Syntaxes {
  import opened Wrappers

  datatype Syntax = JSONLD | N3 | NTRIPLES | RDFXML | TURTLE

  /** The five names, one per constant. */
  const Names: set<string> := {"JSONLD", "N3", "NTRIPLES", "RDFXML", "TURTLE"}

  /** getName: the constant's name. */
  function GetName(syntax: Syntax): (r: string)
    ensures r in Names
  {
    match syntax
    case JSONLD => "JSONLD"
    case N3 => "N3"
    case NTRIPLES => "NTRIPLES"
    case RDFXML => "RDFXML"
    case TURTLE => "TURTLE"
  }

  /** fromName: the constant with that name; any other name is an illegal argument. */
  function FromName(name: string): (r: Result<Syntax>)
    ensures r.Success? <==> name in Names
    ensures r.Failure? ==> r.error == IllegalArgument
  {
    if name == "JSONLD" then Success(JSONLD)
    else if name == "N3" then Success(N3)
    else if name == "NTRIPLES" then Success(NTRIPLES)
    else if name == "RDFXML" then Success(RDFXML)
    else if name == "TURTLE" then Success(TURTLE)
    else Failure(IllegalArgument)
  }

  /** Every constant is found again from its name. */
  lemma FromNameOfGetName(syntax: Syntax)
    ensures FromName(GetName(syntax)) == Success(syntax)
  {
  }

  /** Every accepted name is the name of the constant it yields. */
  lemma GetNameOfFromName(name: string)
    requires FromName(name).Success?
    ensures GetName(FromName(name).value) == name
  {
  }

  /** Distinct constants have distinct names. */
  lemma GetNameInjective(a: Syntax, b: Syntax)
    requires GetName(a) == GetName(b)
    ensures a == b
  {
    FromNameOfGetName(a);
    FromNameOfGetName(b);
  }
}
