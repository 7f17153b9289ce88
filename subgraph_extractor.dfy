/**
 * The subgraph extractor: copies out of an RDF graph every statement about
 * the resources reachable from a root, walking breadth-first from each
 * dequeued resource to the predicates and objects of its statements (unless
 * a boundary stops the statement) and, when asked, to the resources that
 * reify them. A resource is queued only if its identifier (the URI, or the
 * blank-node id) has not been seen before.
 */
module SubgraphExtraction {
  import opened CollectionsUtils
  import opened Rdf

  const RdfSubject := "http://www.w3.org/1999/02/22-rdf-syntax-ns#subject"
  const RdfPredicate := "http://www.w3.org/1999/02/22-rdf-syntax-ns#predicate"
  const RdfObject := "http://www.w3.org/1999/02/22-rdf-syntax-ns#object"

  /**
   * A graph: its statements, in the order the store lists them, and for each
   * reified statement the resources that reify it.
   */
  datatype Graph = Graph(statements: seq<Statement>, reifications: map<Statement, seq<Resource>>)

  /** STOP_NOWHERE_BOUNDARY: no statement stops the walk. */
  predicate StopNowhere(s: Statement)
  {
    false
  }

  /** STOP_AT_REIFIED_STATEMENT_SOURCE: the walk stops at rdf:subject, rdf:predicate and rdf:object statements. */
  predicate StopAtReifiedStatementSource(s: Statement)
  {
    s.predicateUri == RdfSubject || s.predicateUri == RdfPredicate || s.predicateUri == RdfObject
  }

  /** listStatements(current, null, null): the statements whose subject is `current`. */
  function StatementsWithSubject(g: Graph, current: Resource): seq<Statement>
  {
    Filter((s: Statement) => s.subject == current, g.statements)
  }

  /**
   * The resources one statement leads to, in the order they are offered to
   * the queue: its reifiers (only with includeReified), then, unless the
   * boundary stops it, its predicate and its object when that is a resource.
   */
  function Successors(g: Graph, boundary: Statement -> bool, includeReified: bool, s: Statement): seq<Resource>
  {
    (if includeReified && s in g.reifications then g.reifications[s] else [])
    + (if boundary(s) then []
       else [UriResource(s.predicateUri)] + (match s.objectNode
                                             case ResourceNode(o) => [o]
                                             case Literal(_) => []))
  }

  /**
   * The relation the walk follows: a statement leads to its reifiers when
   * includeReified is set, and, unless the boundary stops it, to its
   * predicate and to its object when that is a resource.
   */
  ghost predicate LeadsTo(g: Graph, boundary: Statement -> bool, includeReified: bool, s: Statement, x: Resource)
  {
    (includeReified && s in g.reifications && x in g.reifications[s])
    || (!boundary(s) && (x == UriResource(s.predicateUri) || s.objectNode == ResourceNode(x)))
  }

  /** The queued successors of a statement are exactly the resources it leads to. */
  lemma SuccessorsMembers(g: Graph, boundary: Statement -> bool, includeReified: bool, s: Statement)
    ensures forall x :: x in Successors(g, boundary, includeReified, s) <==> LeadsTo(g, boundary, includeReified, s, x)
  {
  }

  ghost function Ids(rs: seq<Resource>): set<string>
  {
    set r | r in rs :: r.Identifier()
  }

  ghost predicate DistinctIds(rs: seq<Resource>)
  {
    forall i, j :: 0 <= i < j < |rs| ==> rs[i].Identifier() != rs[j].Identifier()
  }

  /** The statements of the graph about the given resources. */
  ghost function StatementsAbout(g: Graph, rs: seq<Resource>): set<Statement>
  {
    set s | s in g.statements && s.subject in rs
  }

  /** `S` holds the root and every successor of a statement about a member of `S`. */
  ghost predicate Closed(g: Graph, root: Resource, boundary: Statement -> bool, includeReified: bool, S: set<Resource>)
  {
    root in S
    && forall s, x :: s in g.statements && s.subject in S && LeadsTo(g, boundary, includeReified, s, x) ==> x in S
  }

  /** Every successor of a statement about a member of `rs` has the identifier of some member. */
  ghost predicate ClosedUpToIds(g: Graph, boundary: Statement -> bool, includeReified: bool, rs: seq<Resource>)
  {
    forall s, x :: s in g.statements && s.subject in rs && LeadsTo(g, boundary, includeReified, s, x) ==>
      x.Identifier() in Ids(rs)
  }

  /** Every resource a statement about `rs` leads to has its identifier in `visited`. */
  ghost predicate SuccessorsVisited(g: Graph, boundary: Statement -> bool, includeReified: bool, rs: seq<Resource>,
                                    visited: set<string>)
  {
    forall s, x :: s in g.statements && s.subject in rs && LeadsTo(g, boundary, includeReified, s, x) ==>
      x.Identifier() in visited
  }

  /**
   * What an extraction delivers: the dequeued resources start with the root,
   * carry pairwise distinct identifiers, are closed up to identifiers and lie
   * in every closed set; the new model holds exactly the statements about them.
   */
  ghost predicate ExtractionOf(g: Graph, root: Resource, boundary: Statement -> bool, includeReified: bool,
                               newModel: set<Statement>, expanded: seq<Resource>)
  {
    && |expanded| > 0 && expanded[0] == root
    && DistinctIds(expanded)
    && ClosedUpToIds(g, boundary, includeReified, expanded)
    && (forall S :: Closed(g, root, boundary, includeReified, S) ==> forall r :: r in expanded ==> r in S)
    && newModel == StatementsAbout(g, expanded)
  }

  /** The identifiers of every resource some statement leads to. */
  ghost function SuccessorIds(g: Graph, boundary: Statement -> bool, includeReified: bool): set<string>
  {
    set s, x | s in g.statements && x in Successors(g, boundary, includeReified, s) :: x.Identifier()
  }

  lemma IdsAppend(a: seq<Resource>, b: seq<Resource>)
    ensures Ids(a + b) == Ids(a) + Ids(b)
  {
    assert forall r :: r in a + b <==> r in a || r in b;
  }

  /** Regrouping a concatenation, as a lemma so the loop proofs below need not prove it in their own contexts. */
  lemma AppendAssociates(a: seq<Resource>, b: seq<Resource>, c: seq<Resource>)
    ensures a + b + c == a + (b + c)
  {
  }

  ghost function StatementSet(ss: seq<Statement>): set<Statement>
  {
    set s | s in ss
  }

  /** The statements of a prefix one longer gain the next statement. */
  lemma PrefixSetNext(ss: seq<Statement>, i: nat)
    requires i < |ss|
    ensures StatementSet(ss[..i + 1]) == StatementSet(ss[..i]) + {ss[i]}
  {
    assert ss[..i + 1] == ss[..i] + [ss[i]];
  }

  /** Appending resources with new, distinct identifiers keeps the identifiers distinct. */
  lemma DistinctAppend(a: seq<Resource>, b: seq<Resource>)
    requires DistinctIds(a) && DistinctIds(b)
    requires forall r :: r in b ==> r.Identifier() !in Ids(a)
    ensures DistinctIds(a + b)
  {
    forall i, j | 0 <= i < j < |a + b|
      ensures (a + b)[i].Identifier() != (a + b)[j].Identifier()
    {
      if j >= |a| && i < |a| {
        assert (a + b)[j] in b;
        assert (a + b)[i] in a;
      }
    }
  }

  /** Resources with distinct identifiers have as many identifiers as there are resources. */
  lemma {:induction false} DistinctIdsCount(rs: seq<Resource>)
    requires DistinctIds(rs)
    ensures |Ids(rs)| == |rs|
    decreases |rs|
  {
    if |rs| > 0 {
      assert DistinctIds(rs[1..]);
      DistinctIdsCount(rs[1..]);
      assert Ids(rs) == {rs[0].Identifier()} + Ids(rs[1..]) by {
        assert forall r :: r in rs <==> r == rs[0] || r in rs[1..];
      }
      assert rs[0].Identifier() !in Ids(rs[1..]);
    }
  }

  /** Fewer identifiers are left to visit once the visited set grows. */
  lemma FewerLeft(universe: set<string>, before: set<string>, after: set<string>)
    requires before < after <= universe
    ensures |universe - after| < |universe - before|
  {
    var x :| x in after && x !in before;
    assert universe - before == (universe - after) + (after - before);
    assert x in after - before;
  }

  /**
   * Offers each resource of `rs` to the queue: one whose identifier is not
   * visited yet is marked visited and queued, in order.
   */
  method EnqueueNew(rs: seq<Resource>, open: seq<Resource>, visited: set<string>)
    returns (open': seq<Resource>, visited': set<string>, ghost added: seq<Resource>)
    ensures open' == open + added
    ensures forall r :: r in added ==> r in rs && r.Identifier() !in visited
    ensures DistinctIds(added)
    ensures visited' == visited + Ids(added)
    ensures forall r :: r in rs ==> r.Identifier() in visited'
  {
    open' := open;
    visited' := visited;
    added := [];
    for k := 0 to |rs|
      invariant open' == open + added
      invariant forall r :: r in added ==> r in rs[..k] && r.Identifier() !in visited
      invariant DistinctIds(added)
      invariant visited' == visited + Ids(added)
      invariant forall r :: r in rs[..k] ==> r.Identifier() in visited'
    {
      var res := rs[k];
      if res.Identifier() !in visited' {
        IdsAppend(added, [res]);
        DistinctAppend(added, [res]);
        visited' := visited' + {res.Identifier()};
        open' := open' + [res];
        added := added + [res];
      }
      assert forall r :: r in rs[..k + 1] ==> r in rs[..k] || r == res;
    }
  }

  /**
   * What holds of everything queued so far (dequeued or not): the root comes
   * first, identifiers are distinct and are exactly the visited ones, they
   * come from the graph, and every closed set holds every queued resource.
   */
  ghost predicate QueueInvariant(g: Graph, root: Resource, boundary: Statement -> bool, includeReified: bool,
                                 queued: seq<Resource>, visited: set<string>)
  {
    && |queued| > 0 && queued[0] == root
    && DistinctIds(queued)
    && visited == Ids(queued)
    && visited <= {root.Identifier()} + SuccessorIds(g, boundary, includeReified)
    && (forall S :: Closed(g, root, boundary, includeReified, S) ==> forall r :: r in queued ==> r in S)
  }

  /** Queueing the new successors of a statement about a queued resource keeps the invariant. */
  lemma EnqueueStep(g: Graph, root: Resource, boundary: Statement -> bool, includeReified: bool,
                    queued: seq<Resource>, visited: set<string>, s: Statement, t: seq<Resource>)
    requires QueueInvariant(g, root, boundary, includeReified, queued, visited)
    requires s in g.statements && s.subject in queued
    requires forall r :: r in t ==> LeadsTo(g, boundary, includeReified, s, r) && r.Identifier() !in visited
    requires DistinctIds(t)
    ensures QueueInvariant(g, root, boundary, includeReified, queued + t, visited + Ids(t))
  {
    IdsAppend(queued, t);
    DistinctAppend(queued, t);
    forall S | Closed(g, root, boundary, includeReified, S)
      ensures forall r :: r in queued + t ==> r in S
    {
      assert s.subject in S;
    }
    SuccessorsMembers(g, boundary, includeReified, s);
    assert Ids(t) <= SuccessorIds(g, boundary, includeReified);
  }

  /** The statements listed for a resource are exactly the graph's statements about it. */
  lemma StatementsWithSubjectMembers(g: Graph, current: Resource)
    ensures forall s :: s in StatementsWithSubject(g, current) <==> s in g.statements && s.subject == current
  {
    FilterMembers((s: Statement) => s.subject == current, g.statements);
  }

  /** Polling the head of the queue moves it to the dequeued part and keeps their concatenation. */
  lemma PollKeepsQueue(expanded: seq<Resource>, open: seq<Resource>, added: seq<Resource>)
    requires |open| > 0
    ensures expanded + open + added == (expanded + [open[0]]) + (open[1..] + added)
    ensures added == [] ==> open[1..] + added == open[1..]
  {
    assert open == [open[0]] + open[1..];
  }

  /**
   * After the statements of a polled resource are followed, the new model
   * holds the statements about every dequeued resource and the successors
   * of all of them are visited.
   */
  lemma PollStep(g: Graph, boundary: Statement -> bool, includeReified: bool, before: seq<Resource>, current: Resource,
                 visited0: set<string>, visited: set<string>)
    requires SuccessorsVisited(g, boundary, includeReified, before, visited0)
    requires visited0 <= visited
    requires forall k, x ::
      (0 <= k < |StatementsWithSubject(g, current)| && LeadsTo(g, boundary, includeReified, StatementsWithSubject(g, current)[k], x))
      ==> x.Identifier() in visited
    ensures StatementsAbout(g, before + [current]) == StatementsAbout(g, before) + StatementSet(StatementsWithSubject(g, current))
    ensures SuccessorsVisited(g, boundary, includeReified, before + [current], visited)
  {
    StatementsWithSubjectMembers(g, current);
    assert forall r :: r in before + [current] <==> r in before || r == current;
    forall s, x | s in g.statements && s.subject in before + [current] && LeadsTo(g, boundary, includeReified, s, x)
      ensures x.Identifier() in visited
    {
      if s.subject != current {
        assert x.Identifier() in visited0;
      } else {
        var k :| 0 <= k < |StatementsWithSubject(g, current)| && StatementsWithSubject(g, current)[k] == s;
      }
    }
  }

  /**
   * The state of the walk between two polls: the dequeued resources
   * followed by the open queue satisfy the queue invariant, the new model
   * holds the statements about the dequeued ones, and everything those
   * statements lead to is visited.
   */
  ghost predicate Frontier(g: Graph, root: Resource, boundary: Statement -> bool, includeReified: bool,
                           newModel: set<Statement>, expanded: seq<Resource>, open: seq<Resource>, visited: set<string>)
  {
    && QueueInvariant(g, root, boundary, includeReified, expanded + open, visited)
    && newModel == StatementsAbout(g, expanded)
    && SuccessorsVisited(g, boundary, includeReified, expanded, visited)
  }

  /** The walk starts with the root queued and visited and nothing dequeued. */
  lemma FrontierStart(g: Graph, root: Resource, boundary: Statement -> bool, includeReified: bool)
    ensures Frontier(g, root, boundary, includeReified, {}, [], [root], {root.Identifier()})
  {
    assert [] + [root] == [root];
    assert Ids([root]) == {root.Identifier()};
    assert StatementsAbout(g, []) == {};
  }

  /** The statements about the head of the queue are statements of the graph about a queued resource. */
  lemma FrontierPoll(g: Graph, root: Resource, boundary: Statement -> bool, includeReified: bool,
                     newModel: set<Statement>, expanded: seq<Resource>, open: seq<Resource>, visited: set<string>)
    requires Frontier(g, root, boundary, includeReified, newModel, expanded, open, visited) && |open| > 0
    ensures QueueInvariant(g, root, boundary, includeReified, expanded + open, visited)
    ensures forall s :: s in StatementsWithSubject(g, open[0]) ==> s in g.statements && s.subject in expanded + open
  {
    StatementsWithSubjectMembers(g, open[0]);
    assert open[0] in expanded + open;
  }

  /**
   * Following the statements about the head of the queue and dequeuing it
   * keeps the walk's state, and either visits a new identifier of the
   * finite universe or shortens the queue.
   */
  lemma FrontierStep(g: Graph, root: Resource, boundary: Statement -> bool, includeReified: bool,
                     newModel0: set<Statement>, expanded: seq<Resource>, open0: seq<Resource>, visited0: set<string>,
                     universe: set<string>, added: seq<Resource>,
                     newModel: set<Statement>, open: seq<Resource>, visited: set<string>)
    requires Frontier(g, root, boundary, includeReified, newModel0, expanded, open0, visited0) && |open0| > 0
    requires universe == {root.Identifier()} + SuccessorIds(g, boundary, includeReified)
    requires newModel == newModel0 + StatementSet(StatementsWithSubject(g, open0[0]))
    requires open == open0[1..] + added
    requires QueueInvariant(g, root, boundary, includeReified, (expanded + open0) + added, visited)
    requires visited0 <= visited && (visited == visited0 ==> added == [])
    requires forall k, x ::
      (0 <= k < |StatementsWithSubject(g, open0[0])| && LeadsTo(g, boundary, includeReified, StatementsWithSubject(g, open0[0])[k], x))
      ==> x.Identifier() in visited
    ensures Frontier(g, root, boundary, includeReified, newModel, expanded + [open0[0]], open, visited)
    ensures |universe - visited| < |universe - visited0| || (visited == visited0 && |open| < |open0|)
  {
    PollKeepsQueue(expanded, open0, added);
    PollStep(g, boundary, includeReified, expanded, open0[0], visited0, visited);
    if visited0 < visited {
      FewerLeft(universe, visited0, visited);
    }
  }

  /** A walk whose queue is empty has delivered an extraction. */
  lemma FrontierDone(g: Graph, root: Resource, boundary: Statement -> bool, includeReified: bool,
                     newModel: set<Statement>, expanded: seq<Resource>, visited: set<string>)
    requires Frontier(g, root, boundary, includeReified, newModel, expanded, [], visited)
    ensures ExtractionOf(g, root, boundary, includeReified, newModel, expanded)
  {
    assert expanded + [] == expanded;
  }

  /** One statement followed: its new successors are queued and all its successors are visited. */
  lemma FollowStep(g: Graph, root: Resource, boundary: Statement -> bool, includeReified: bool,
                   statements: seq<Statement>, i: nat, queued: seq<Resource>, added: seq<Resource>,
                   visited: set<string>, t: seq<Resource>, nextVisited: set<string>)
    requires QueueInvariant(g, root, boundary, includeReified, queued + added, visited)
    requires i < |statements| && statements[i] in g.statements && statements[i].subject in queued
    requires forall r :: r in t ==> r in Successors(g, boundary, includeReified, statements[i]) && r.Identifier() !in visited
    requires DistinctIds(t) && nextVisited == visited + Ids(t)
    requires forall r :: r in Successors(g, boundary, includeReified, statements[i]) ==> r.Identifier() in nextVisited
    requires forall k, x :: 0 <= k < i && LeadsTo(g, boundary, includeReified, statements[k], x) ==>
      x.Identifier() in visited
    ensures QueueInvariant(g, root, boundary, includeReified, queued + (added + t), nextVisited)
    ensures |t| > 0 ==> t[0].Identifier() in nextVisited - visited
    ensures forall k, x :: 0 <= k <= i && LeadsTo(g, boundary, includeReified, statements[k], x) ==>
      x.Identifier() in nextVisited
  {
    var statement := statements[i];
    assert statement.subject in queued + added;
    SuccessorsMembers(g, boundary, includeReified, statement);
    EnqueueStep(g, root, boundary, includeReified, queued + added, visited, statement, t);
    AppendAssociates(queued, added, t);
    forall k, x | 0 <= k <= i && LeadsTo(g, boundary, includeReified, statements[k], x)
      ensures x.Identifier() in nextVisited
    {
      if k == i {
        assert x in Successors(g, boundary, includeReified, statement);
      } else {
        assert x.Identifier() in visited;
      }
    }
  }

  /**
   * The body of the outer loop for one polled resource: each of its
   * statements is copied into the new model and its unvisited successors
   * are queued.
   */
  method FollowStatements(g: Graph, root: Resource, boundary: Statement -> bool, includeReified: bool,
                          statements: seq<Statement>, newModel: set<Statement>, open: seq<Resource>,
                          visited: set<string>, ghost queued: seq<Resource>)
    returns (newModel': set<Statement>, open': seq<Resource>, visited': set<string>, ghost added: seq<Resource>)
    requires QueueInvariant(g, root, boundary, includeReified, queued, visited)
    requires forall s :: s in statements ==> s in g.statements && s.subject in queued
    ensures newModel' == newModel + StatementSet(statements)
    ensures open' == open + added
    ensures QueueInvariant(g, root, boundary, includeReified, queued + added, visited')
    ensures visited <= visited' && (visited' == visited ==> added == [])
    ensures forall k, x :: 0 <= k < |statements| && LeadsTo(g, boundary, includeReified, statements[k], x) ==>
      x.Identifier() in visited'
  {
    newModel', open', visited', added := newModel, open, visited, [];
    for i := 0 to |statements|
      invariant newModel' == newModel + StatementSet(statements[..i])
      invariant open' == open + added
      invariant QueueInvariant(g, root, boundary, includeReified, queued + added, visited')
      invariant visited <= visited' && (visited' == visited ==> added == [])
      invariant forall k, x :: 0 <= k < i && LeadsTo(g, boundary, includeReified, statements[k], x) ==>
        x.Identifier() in visited'
    {
      var statement := statements[i];
      newModel' := newModel' + {statement};
      var next, nextVisited, t := EnqueueNew(Successors(g, boundary, includeReified, statement), open', visited');
      FollowStep(g, root, boundary, includeReified, statements, i, queued, added, visited', t, nextVisited);
      AppendAssociates(open, added, t);
      open', visited', added := next, nextVisited, added + t;
      PrefixSetNext(statements, i);
    }
    assert statements[..|statements|] == statements;
  }

  /**
   * extract(model, rootResource, boundary, includeReified): the breadth-first
   * walk. `expanded` is the sequence of resources polled from the queue.
   */
  method Extract(g: Graph, root: Resource, boundary: Statement -> bool, includeReified: bool)
    returns (newModel: set<Statement>, ghost expanded: seq<Resource>)
    ensures ExtractionOf(g, root, boundary, includeReified, newModel, expanded)
  {
    newModel := {};
    var open := [root];
    var visited := {root.Identifier()};
    expanded := [];
    ghost var universe := {root.Identifier()} + SuccessorIds(g, boundary, includeReified);
    FrontierStart(g, root, boundary, includeReified);
    while |open| > 0
      invariant Frontier(g, root, boundary, includeReified, newModel, expanded, open, visited)
      decreases |universe - visited|, |open|
    {
      ghost var newModel0, open0, visited0 := newModel, open, visited;
      var current := open[0];
      var statements := StatementsWithSubject(g, current);
      FrontierPoll(g, root, boundary, includeReified, newModel, expanded, open, visited);
      ghost var added;
      newModel, open, visited, added :=
        FollowStatements(g, root, boundary, includeReified, statements, newModel, open[1..], visited, expanded + open);
      FrontierStep(g, root, boundary, includeReified, newModel0, expanded, open0, visited0, universe,
                   added, newModel, open, visited);
      expanded := expanded + [current];
    }
    FrontierDone(g, root, boundary, includeReified, newModel, expanded, visited);
  }

  /** extract(model, rootResource, includeReified) and extract(rootResource, includeReified): the reified-source boundary. */
  method ExtractAtReifiedSources(g: Graph, root: Resource, includeReified: bool)
    returns (newModel: set<Statement>, ghost expanded: seq<Resource>)
    ensures ExtractionOf(g, root, StopAtReifiedStatementSource, includeReified, newModel, expanded)
  {
    newModel, expanded := Extract(g, root, StopAtReifiedStatementSource, includeReified);
  }

  /** extract(rootResource, boundary, includeReified): the boundary argument is not used. */
  method ExtractIgnoringBoundary(g: Graph, root: Resource, boundary: Statement -> bool, includeReified: bool)
    returns (newModel: set<Statement>, ghost expanded: seq<Resource>)
    ensures ExtractionOf(g, root, StopAtReifiedStatementSource, includeReified, newModel, expanded)
  {
    newModel, expanded := Extract(g, root, StopAtReifiedStatementSource, includeReified);
  }

  // ----------------------------------------------------------------------
  // What an extraction determines.
  // ----------------------------------------------------------------------

  /** The root and every resource some statement of the graph leads to. */
  ghost function GraphResources(g: Graph, root: Resource, boundary: Statement -> bool, includeReified: bool): set<Resource>
  {
    {root} + set s, x | s in g.statements && x in Successors(g, boundary, includeReified, s) :: x
  }

  /** No two resources the walk can meet share an identifier. */
  ghost predicate UnambiguousIds(g: Graph, root: Resource, boundary: Statement -> bool, includeReified: bool)
  {
    forall a, b ::
      (a in GraphResources(g, root, boundary, includeReified) && b in GraphResources(g, root, boundary, includeReified)
       && a.Identifier() == b.Identifier()) ==> a == b
  }

  lemma GraphResourcesClosed(g: Graph, root: Resource, boundary: Statement -> bool, includeReified: bool)
    ensures Closed(g, root, boundary, includeReified, GraphResources(g, root, boundary, includeReified))
  {
    forall s, x | s in g.statements && LeadsTo(g, boundary, includeReified, s, x)
      ensures x in GraphResources(g, root, boundary, includeReified)
    {
      SuccessorsMembers(g, boundary, includeReified, s);
    }
  }

  /**
   * When identifiers are unambiguous, the dequeued resources form a closed
   * set, and so the least closed set: exactly what is reachable from the root.
   */
  lemma ExtractedIsLeastClosed(g: Graph, root: Resource, boundary: Statement -> bool, includeReified: bool,
                               newModel: set<Statement>, expanded: seq<Resource>)
    requires ExtractionOf(g, root, boundary, includeReified, newModel, expanded)
    requires UnambiguousIds(g, root, boundary, includeReified)
    ensures Closed(g, root, boundary, includeReified, set r | r in expanded)
  {
    var nodes := GraphResources(g, root, boundary, includeReified);
    GraphResourcesClosed(g, root, boundary, includeReified);
    forall s, x | s in g.statements && s.subject in (set r | r in expanded) && LeadsTo(g, boundary, includeReified, s, x)
      ensures x in (set r | r in expanded)
    {
      assert x.Identifier() in Ids(expanded);
      var r :| r in expanded && r.Identifier() == x.Identifier();
      SuccessorsMembers(g, boundary, includeReified, s);
      assert x in nodes && r in nodes;
    }
  }

  /** With unambiguous identifiers every extraction yields the same model. */
  lemma ExtractionDeterministic(g: Graph, root: Resource, boundary: Statement -> bool, includeReified: bool,
                                m1: set<Statement>, e1: seq<Resource>, m2: set<Statement>, e2: seq<Resource>)
    requires ExtractionOf(g, root, boundary, includeReified, m1, e1)
    requires ExtractionOf(g, root, boundary, includeReified, m2, e2)
    requires UnambiguousIds(g, root, boundary, includeReified)
    ensures (set r | r in e1) == (set r | r in e2)
    ensures m1 == m2
  {
    ExtractedIsLeastClosed(g, root, boundary, includeReified, m1, e1);
    ExtractedIsLeastClosed(g, root, boundary, includeReified, m2, e2);
    assert forall r :: r in e1 <==> r in e2;
  }

  /**
   * When every statement about the root is stopped by the boundary and
   * none of them is followed to a reifier, only the root is dequeued and
   * the new model holds exactly the statements about it.
   */
  lemma StopsAtBoundary(g: Graph, root: Resource, boundary: Statement -> bool, includeReified: bool,
                        newModel: set<Statement>, expanded: seq<Resource>)
    requires ExtractionOf(g, root, boundary, includeReified, newModel, expanded)
    requires forall s :: s in g.statements && s.subject == root ==>
      boundary(s) && (!includeReified || s !in g.reifications)
    ensures expanded == [root]
    ensures newModel == set s | s in g.statements && s.subject == root
  {
    assert Closed(g, root, boundary, includeReified, {root});
    assert Ids(expanded) == {root.Identifier()};
    DistinctIdsCount(expanded);
  }

  /** Without includeReified the reifications of the graph make no difference. */
  lemma ReifiedOnlyWhenIncluded(g: Graph, root: Resource, boundary: Statement -> bool,
                                newModel: set<Statement>, expanded: seq<Resource>)
    ensures ExtractionOf(g, root, boundary, false, newModel, expanded)
        <==> ExtractionOf(Graph(g.statements, map[]), root, boundary, false, newModel, expanded)
  {
    var h := Graph(g.statements, map[]);
    assert forall s, x :: LeadsTo(g, boundary, false, s, x) == LeadsTo(h, boundary, false, s, x);
    assert forall S :: Closed(g, root, boundary, false, S) == Closed(h, root, boundary, false, S);
  }

  /** A graph where a resource is reached only through an rdf:subject statement. */
  function BoundaryExample(): (g: Graph)
    ensures |g.statements| == 2
  {
    Graph([Statement(UriResource("urn:a"), RdfSubject, ResourceNode(UriResource("urn:b"))),
           Statement(UriResource("urn:b"), "urn:p", Literal("v"))],
          map[])
  }

  /**
   * Asked to stop nowhere, the boundary-taking resource overload still stops
   * at the rdf:subject statement, so it misses a statement that an
   * extraction honouring the boundary copies.
   */
  lemma BoundaryIgnored(m1: set<Statement>, e1: seq<Resource>, m2: set<Statement>, e2: seq<Resource>)
    requires ExtractionOf(BoundaryExample(), UriResource("urn:a"), StopAtReifiedStatementSource, false, m1, e1)
    requires ExtractionOf(BoundaryExample(), UriResource("urn:a"), StopNowhere, false, m2, e2)
    ensures Statement(UriResource("urn:b"), "urn:p", Literal("v")) in m2 - m1
  {
    var g := BoundaryExample();
    var a, b := UriResource("urn:a"), UriResource("urn:b");
    StopsAtBoundary(g, a, StopAtReifiedStatementSource, false, m1, e1);
    assert LeadsTo(g, StopNowhere, false, g.statements[0], b);
    assert b.Identifier() in Ids(e2);
    var r :| r in e2 && r.Identifier() == "urn:b";
    var S := {a, UriResource(RdfSubject), b, UriResource("urn:p")};
    assert Closed(g, a, StopNowhere, false, S);
    assert r == b;
  }
}
