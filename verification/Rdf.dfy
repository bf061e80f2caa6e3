/**
 RDF terms, query variables, triples and triple patterns. IRIs, literals and blank nodes are
 abstract values here: their text is not parsed.
 */
module Rdf {

  datatype Term =
    | Iri(identifier: string)
    | BlankNode(identifier: string)
    | Literal(lexical: string, datatypeIri: string, language: string)

  // A blank node in a query is an anonymous variable, distinct from the named one.
  datatype Variable = Variable(name: string, anonymous: bool)

  datatype Node = Var(variable: Variable) | Fixed(term: Term)

  datatype Triple = Triple(s: Term, p: Term, o: Term)

  datatype TriplePattern = TriplePattern(s: Node, p: Node, o: Node)

  function Nodes(tp: TriplePattern): seq<Node> {
    [tp.s, tp.p, tp.o]
  }

  function NodeVars(n: Node): set<Variable> {
    match n
    case Var(v) => {v}
    case Fixed(_) => {}
  }

  function PatternVars(tp: TriplePattern): set<Variable> {
    NodeVars(tp.s) + NodeVars(tp.p) + NodeVars(tp.o)
  }

  function PatternsVars(tps: seq<TriplePattern>): set<Variable> {
    if tps == [] then {} else PatternVars(tps[0]) + PatternsVars(tps[1..])
  }

  lemma PatternsVarsConcat(a: seq<TriplePattern>, b: seq<TriplePattern>)
    ensures PatternsVars(a + b) == PatternsVars(a) + PatternsVars(b)
  {
    if a == [] {
      assert a + b == b;
    } else {
      assert (a + b)[1..] == a[1..] + b;
      PatternsVarsConcat(a[1..], b);
    }
  }
}
