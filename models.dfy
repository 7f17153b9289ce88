/**
 * The pure helpers of Models: individual URI generation, snake casing,
 * the ordering of Turtle output blocks and namespace filtering.
 */
module Models {
  import opened Wrappers
  import opened JavaStrings
  import opened Rdf
  import CollectionsUtils

  /** toSnakeCase: trimmed, lower-cased, spaces turned into underscores. */
  function ToSnakeCase(name: string): (r: string)
    ensures |r| == |Trim(name)|
    ensures ' ' !in r
    ensures forall i :: 0 <= i < |r| ==> !IsUpper(r[i])
    ensures forall i :: 0 <= i < |r| ==> r[i] == (if Trim(name)[i] == ' ' then '_' else LowerChar(Trim(name)[i]))
  {
    ReplaceChar(Lower(Trim(name)), ' ', '_')
  }

  /**
   * Guava's CaseFormat.LOWER_CAMEL.to(LOWER_UNDERSCORE, s): an underscore
   * before every upper-case letter except at the start, and everything
   * lower-cased.
   */
  function CamelToSnake(s: string): (r: string)
  {
    if |s| == 0 then ""
    else [LowerChar(s[0])] + CamelTail(s[1..])
  }

  function CamelTail(s: string): string
  {
    if |s| == 0 then ""
    else (if IsUpper(s[0]) then "_" else "") + [LowerChar(s[0])] + CamelTail(s[1..])
  }

  function UpperCount(s: string): nat
  {
    if |s| == 0 then 0 else (if IsUpper(s[0]) then 1 else 0) + UpperCount(s[1..])
  }

  lemma {:induction false} CamelTailProperties(s: string)
    ensures |CamelTail(s)| == |s| + UpperCount(s)
    ensures forall i :: 0 <= i < |CamelTail(s)| ==> !IsUpper(CamelTail(s)[i])
    ensures UpperCount(s) == 0 ==> CamelTail(s) == s
  {
    if |s| > 0 {
      CamelTailProperties(s[1..]);
      assert UpperCount(s) == 0 ==> s == [s[0]] + s[1..];
    }
  }

  /** The snake form is lower case, one character longer per inner capital, and keeps lower-case input. */
  lemma CamelToSnakeProperties(s: string)
    ensures |CamelToSnake(s)| == |s| + (if |s| == 0 then 0 else UpperCount(s[1..]))
    ensures forall i :: 0 <= i < |CamelToSnake(s)| ==> !IsUpper(CamelToSnake(s)[i])
    ensures (forall i :: 0 <= i < |s| ==> !IsUpper(s[i])) ==> CamelToSnake(s) == s
  {
    if |s| > 0 {
      CamelTailProperties(s[1..]);
      if forall i :: 0 <= i < |s| ==> !IsUpper(s[i]) {
        NoUpperCount(s[1..]);
        assert s == [s[0]] + s[1..];
      }
    }
  }

  lemma {:induction false} NoUpperCount(s: string)
    requires forall i :: 0 <= i < |s| ==> !IsUpper(s[i])
    ensures UpperCount(s) == 0
  {
    if |s| > 0 {
      NoUpperCount(s[1..]);
    }
  }

  /** getIndividualNamePrefix: the snake-cased local name of the type, then "_". */
  function IndividualNamePrefix(individualTypeUri: string): (r: string)
    ensures |r| > 0 && r[|r| - 1] == '_'
  {
    CamelToSnake(LocalName(individualTypeUri)) + "_"
  }

  /** The characters the pattern [^a-zA-Z\d\s:] leaves alone. */
  predicate IsKeptInName(c: char)
  {
    IsLetter(c) || IsDigit(c) || IsSpace(c) || c == ':'
  }

  /** replaceAll("[^a-zA-Z\\d\\s:]", "_") */
  function CleanIndividualName(s: string): (r: string)
    ensures |r| == |s|
    ensures forall i :: 0 <= i < |r| ==> IsKeptInName(r[i]) || r[i] == '_'
    ensures forall i :: 0 <= i < |s| ==> (IsKeptInName(s[i]) ==> r[i] == s[i])
    ensures forall i :: 0 <= i < |s| ==> (!IsKeptInName(s[i]) ==> r[i] == '_')
  {
    seq(|s|, i requires 0 <= i < |s| => if IsKeptInName(s[i]) then s[i] else '_')
  }

  lemma CleanIndividualNameIdempotent(s: string)
    ensures CleanIndividualName(CleanIndividualName(s)) == CleanIndividualName(s)
  {
  }

  /** generateUriForIndividual */
  function GenerateUriForIndividual(namespace: string, individualTypeUri: string, individualName: string): (r: string)
  {
    namespace + CleanIndividualName(IndividualNamePrefix(individualTypeUri) + ToSnakeCase(individualName))
  }

  /** A generated URI is longer than its namespace: the name part is never empty. */
  lemma GeneratedUriIsLonger(namespace: string, individualTypeUri: string, individualName: string)
    ensures |GenerateUriForIndividual(namespace, individualTypeUri, individualName)| > |namespace|
  {
  }

  lemma CleanIndividualNameConcat(a: string, b: string)
    ensures CleanIndividualName(a + b) == CleanIndividualName(a) + CleanIndividualName(b)
  {
  }

  /**
   * The URI is the namespace followed by a non-empty name made only of
   * letters, digits, white space, ':' and '_', ending in the snake-cased,
   * cleaned individual name.
   */
  lemma GeneratedUriShape(namespace: string, individualTypeUri: string, individualName: string)
    ensures var r := GenerateUriForIndividual(namespace, individualTypeUri, individualName);
      && StartsWith(r, namespace)
      && |r| > |namespace|
      && (forall i :: |namespace| <= i < |r| ==> IsKeptInName(r[i]) || r[i] == '_')
      && EndsWith(r, CleanIndividualName(ToSnakeCase(individualName)))
  {
    var prefix := IndividualNamePrefix(individualTypeUri);
    var snake := ToSnakeCase(individualName);
    var name := CleanIndividualName(prefix + snake);
    CleanIndividualNameConcat(prefix, snake);
    ConcatEnds(CleanIndividualName(prefix), CleanIndividualName(snake));
    ConcatEnds(namespace, name);
    ConcatKeepsSuffix(namespace, name, CleanIndividualName(snake));
    NameCharactersKept(namespace, name);
  }

  lemma ConcatEnds(a: string, b: string)
    ensures StartsWith(a + b, a) && EndsWith(a + b, b)
  {
    assert (a + b)[..|a|] == a;
    assert (a + b)[|a + b| - |b|..] == b;
  }

  lemma ConcatKeepsSuffix(a: string, b: string, c: string)
    requires EndsWith(b, c)
    ensures EndsWith(a + b, c)
  {
    assert (a + b)[|a + b| - |c|..] == b[|b| - |c|..];
  }

  lemma NameCharactersKept(namespace: string, name: string)
    requires forall i :: 0 <= i < |name| ==> IsKeptInName(name[i]) || name[i] == '_'
    ensures forall i :: |namespace| <= i < |namespace + name| ==>
      IsKeptInName((namespace + name)[i]) || (namespace + name)[i] == '_'
  {
    forall i | |namespace| <= i < |namespace + name|
      ensures IsKeptInName((namespace + name)[i]) || (namespace + name)[i] == '_'
    {
      assert (namespace + name)[i] == name[i - |namespace|];
    }
  }

  /** Two different names whose snake forms agree give the same URI: only trimmed, case-folded text matters. */
  lemma GeneratedUriIgnoresCaseAndPadding(namespace: string, typeUri: string, name: string)
    ensures GenerateUriForIndividual(namespace, typeUri, Lower(name)) == GenerateUriForIndividual(namespace, typeUri, name)
    ensures GenerateUriForIndividual(namespace, typeUri, Trim(name)) == GenerateUriForIndividual(namespace, typeUri, name)
  {
    TrimOfLower(name);
    LowerIdempotent(Trim(name));
    TrimIdempotent(name);
  }

  // Turtle output ordering

  /** The priority of a block's first character: prefixes, then blank-node blocks, then the rest. */
  function Priority(c: char): Option<int>
  {
    if c == '@' then Some(10)
    else if c == '[' then Some(7)
    else if c == '_' then Some(4)
    else if c == ':' then Some(2)
    else None
  }

  /** turtleStatementComparator, for the non-empty blocks it is called on. */
  function TurtleStatementComparator(statement1: string, statement2: string): int
    requires |statement1| > 0 && |statement2| > 0
  {
    var p1, p2 := Priority(statement1[0]), Priority(statement2[0]);
    if statement1[0] == statement2[0] then CompareTo(statement1, statement2)
    else if p1.None? && p2.None? then CompareTo(statement1, statement2)
    else if p1.None? then 1
    else if p2.None? then -1
    else -1 * p1.value + p2.value
  }

  /** A block's rank: higher priority first, unprioritised blocks last. */
  function Rank(statement: string): int
    requires |statement| > 0
  {
    match Priority(statement[0])
    case Some(p) => -p
    case None => 0
  }

  /**
   * The comparator orders blocks by rank and then lexicographically: it is
   * zero only on equal blocks and negative exactly when the first block
   * comes first in that order.
   */
  lemma TurtleComparatorIsRankThenText(s1: string, s2: string)
    requires |s1| > 0 && |s2| > 0
    ensures TurtleStatementComparator(s1, s2) == 0 <==> s1 == s2
    ensures TurtleStatementComparator(s1, s2) < 0 <==>
              Rank(s1) < Rank(s2) || (Rank(s1) == Rank(s2) && CompareTo(s1, s2) < 0)
  {
    CompareToZeroIff(s1, s2);
  }

  /** The comparator used by the sort; it is only ever applied to non-empty blocks. */
  function TurtleOrder(): (string, string) -> int
  {
    (a: string, b: string) => if |a| > 0 && |b| > 0 then TurtleStatementComparator(a, b) else 0
  }

  /** The trimmed blocks between blank lines. */
  function TurtleBlocks(turtle: string): (r: seq<string>)
    ensures |r| == |Split(turtle, "\n\n")|
    ensures forall i :: 0 <= i < |r| ==> r[i] == Trim(Split(turtle, "\n\n")[i])
  {
    var pieces := Split(turtle, "\n\n");
    seq(|pieces|, i requires 0 <= i < |pieces| => Trim(pieces[i]))
  }

  /**
   * sortTurtle: the trimmed blocks sorted by the comparator and joined with
   * blank lines. With two or more blocks every block is compared, and an
   * empty one fails in substring(0, 1).
   */
  function SortTurtle(turtle: string): (r: Result<string>)
  {
    var blocks := TurtleBlocks(turtle);
    if |blocks| >= 2 && exists i :: 0 <= i < |blocks| && blocks[i] == "" then Failure(IndexOutOfBounds)
    else Success(Join(CollectionsUtils.Sort(TurtleOrder(), blocks), "\n\n"))
  }

  lemma TurtleOrderIsTotalPreorder(blocks: seq<string>)
    requires forall i :: 0 <= i < |blocks| ==> blocks[i] != ""
    ensures CollectionsUtils.IsTotalPreorder(TurtleOrder(), blocks)
  {
    var cmp := TurtleOrder();
    forall a, b | a in blocks && b in blocks
      ensures cmp(a, b) <= 0 || cmp(b, a) <= 0
    {
      TurtleComparatorIsRankThenText(a, b);
      TurtleComparatorIsRankThenText(b, a);
      CompareToAntisymmetric(a, b);
    }
    forall a, b, c | a in blocks && b in blocks && c in blocks && cmp(a, b) <= 0 && cmp(b, c) <= 0
      ensures cmp(a, c) <= 0
    {
      TurtleComparatorIsRankThenText(a, b);
      TurtleComparatorIsRankThenText(b, c);
      TurtleComparatorIsRankThenText(a, c);
      if a != b && b != c && CompareTo(a, b) < 0 && CompareTo(b, c) < 0 {
        CompareToTransitive(a, b, c);
      }
    }
  }

  /** sortTurtle fails exactly when there are two or more blocks and one of them is empty. */
  lemma SortTurtleFails(turtle: string)
    ensures var blocks := TurtleBlocks(turtle);
      SortTurtle(turtle).Failure? <==> |blocks| >= 2 && exists i :: 0 <= i < |blocks| && blocks[i] == ""
  {
  }

  /** Sorting non-empty blocks puts every pair in comparator order. */
  lemma SortedPairInOrder(blocks: seq<string>, i: int, j: int)
    requires forall k :: 0 <= k < |blocks| ==> blocks[k] != ""
    requires 0 <= i < j < |CollectionsUtils.Sort(TurtleOrder(), blocks)|
    ensures var sorted := CollectionsUtils.Sort(TurtleOrder(), blocks);
      sorted[i] != "" && sorted[j] != "" && TurtleStatementComparator(sorted[i], sorted[j]) <= 0
  {
    var sorted := CollectionsUtils.Sort(TurtleOrder(), blocks);
    TurtleOrderIsTotalPreorder(blocks);
    CollectionsUtils.SortSorted(TurtleOrder(), blocks);
    assert sorted[i] in blocks && sorted[j] in blocks;
    assert TurtleOrder()(sorted[i], sorted[j]) <= 0;
  }

  /**
   * Otherwise sortTurtle joins a permutation of the trimmed blocks in which
   * every pair is in comparator order.
   */
  lemma SortTurtleSorts(turtle: string)
    requires SortTurtle(turtle).Success?
    ensures var blocks := TurtleBlocks(turtle);
      var sorted := CollectionsUtils.Sort(TurtleOrder(), blocks);
      && SortTurtle(turtle).value == Join(sorted, "\n\n")
      && multiset(sorted) == multiset(blocks)
      && (|blocks| >= 2 ==> forall i :: 0 <= i < |sorted| ==> sorted[i] != "")
      && (forall i, j :: 0 <= i < j < |sorted| ==>
            sorted[i] != "" && sorted[j] != "" && TurtleStatementComparator(sorted[i], sorted[j]) <= 0)
  {
    var blocks := TurtleBlocks(turtle);
    var sorted := CollectionsUtils.Sort(TurtleOrder(), blocks);
    if |blocks| >= 2 {
      assert forall i :: 0 <= i < |blocks| ==> blocks[i] != "";
      SortedBlocksInOrder(blocks, sorted);
    } else {
      assert |sorted| == |blocks| by {
        assert |multiset(sorted)| == |multiset(blocks)|;
      }
    }
  }

  /** Sorting non-empty blocks puts every pair in comparator order. */
  lemma SortedBlocksInOrder(blocks: seq<string>, sorted: seq<string>)
    requires forall i :: 0 <= i < |blocks| ==> blocks[i] != ""
    requires sorted == CollectionsUtils.Sort(TurtleOrder(), blocks)
    ensures forall i :: 0 <= i < |sorted| ==> sorted[i] != ""
    ensures forall i, j :: 0 <= i < j < |sorted| ==> TurtleStatementComparator(sorted[i], sorted[j]) <= 0
  {
    forall i | 0 <= i < |sorted|
      ensures sorted[i] != ""
    {
      assert sorted[i] in blocks;
    }
    forall i, j | 0 <= i < j < |sorted|
      ensures TurtleStatementComparator(sorted[i], sorted[j]) <= 0
    {
      SortedPairInOrder(blocks, i, j);
    }
  }

  /** After sorting non-empty blocks, every prefix declaration ('@') precedes every other block. */
  lemma SortedBlocksPrefixesFirst(blocks: seq<string>)
    requires forall i :: 0 <= i < |blocks| ==> blocks[i] != ""
    ensures var sorted := CollectionsUtils.Sort(TurtleOrder(), blocks);
      forall i, j :: 0 <= i < j < |sorted| && sorted[j] != "" && sorted[j][0] == '@' ==>
        sorted[i] != "" && sorted[i][0] == '@'
  {
    var sorted := CollectionsUtils.Sort(TurtleOrder(), blocks);
    forall i, j | 0 <= i < j < |sorted| && sorted[j] != "" && sorted[j][0] == '@'
      ensures sorted[i] != "" && sorted[i][0] == '@'
    {
      SortedPairInOrder(blocks, i, j);
      OnlyPrefixesPrecedePrefix(sorted[i], sorted[j]);
    }
  }

  /** A block the comparator puts no later than a prefix declaration is one too. */
  lemma OnlyPrefixesPrecedePrefix(s1: string, s2: string)
    requires |s1| > 0 && |s2| > 0 && s2[0] == '@'
    requires TurtleStatementComparator(s1, s2) <= 0
    ensures s1[0] == '@'
  {
    TurtleComparatorIsRankThenText(s1, s2);
    assert Rank(s2) == -10;
  }

  // Namespace filtering

  /** filterByNamespace: the named resources whose namespace is the given one, in order. */
  function FilterByNamespace(resources: seq<Resource>, namespace: string): (r: seq<Resource>)
    ensures |r| <= |resources|
    ensures forall x :: x in r <==> x in resources && x.UriResource? && Namespace(x.uri) == namespace
  {
    if |resources| == 0 then []
    else
      var x := resources[0];
      var rest := FilterByNamespace(resources[1..], namespace);
      assert forall y :: y in resources <==> y == x || y in resources[1..];
      if x.UriResource? && Namespace(x.uri) == namespace then [x] + rest else rest
  }

  lemma {:induction false} FilterByNamespaceIdempotent(resources: seq<Resource>, namespace: string)
    ensures FilterByNamespace(FilterByNamespace(resources, namespace), namespace) == FilterByNamespace(resources, namespace)
  {
    if |resources| > 0 {
      FilterByNamespaceIdempotent(resources[1..], namespace);
      var x := resources[0];
      var rest := FilterByNamespace(resources[1..], namespace);
      if x.UriResource? && Namespace(x.uri) == namespace {
        assert ([x] + rest)[1..] == rest;
      }
    }
  }
}
