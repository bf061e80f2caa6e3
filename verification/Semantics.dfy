/**
 Bag semantics: of group graph patterns as SPARQL 1.1 Query Language translates them
 (section 18.2.2.6, group by group and entry by entry) and of the normal form the visitor walks.
 */
module Semantics {
  import opened Wrappers
  import opened Sequences
  import opened Rdf
  import opened Bags
  import opened Patterns

  // A graph is a finite set of triples, listed once each in any order.
  type Graph = seq<Triple>

  // ---- triple patterns ----

  function NodeBinding(n: Node, t: Term): Mapping {
    match n
    case Var(v) => map[v := t]
    case Fixed(_) => map[]
  }

  function NodeInstance(n: Node, m: Mapping): Option<Term> {
    match n
    case Var(v) => if v in m then Some(m[v]) else None
    case Fixed(t) => Some(t)
  }

  // The triple that `m` turns the pattern into, if it binds all its variables.
  function Instance(tp: TriplePattern, m: Mapping): Option<Triple> {
    match (NodeInstance(tp.s, m), NodeInstance(tp.p, m), NodeInstance(tp.o, m))
    case (Some(s), Some(p), Some(o)) => Some(Triple(s, p, o))
    case _ => None
  }

  function Binding(tp: TriplePattern, t: Triple): Mapping {
    NodeBinding(tp.s, t.s) + NodeBinding(tp.p, t.p) + NodeBinding(tp.o, t.o)
  }

  function MatchTriple(tp: TriplePattern, t: Triple): Bag {
    if Instance(tp, Binding(tp, t)) == Some(t) then [Binding(tp, t)] else []
  }

  function Solutions(graph: Graph, tp: TriplePattern): Bag {
    if graph == [] then [] else MatchTriple(tp, graph[0]) + Solutions(graph[1..], tp)
  }

  ghost function EvalBgp(graph: Graph, tps: seq<TriplePattern>): Bag {
    if tps == [] then [map[]] else Join(Solutions(graph, tps[0]), EvalBgp(graph, tps[1..]))
  }

  ghost function EvalBlock(graph: Graph, block: Option<TriplesBlock>): Bag {
    EvalBgp(graph, BlocksPatterns(BlockList(block)))
  }

  // ---- group graph patterns ----

  ghost function Eval(graph: Graph, g: Group): Bag
    decreases g, 0
  {
    EvalPrefix(graph, g.triplesBlock, g.subs)
  }

  // The entries of a group from left to right: OPTIONAL is a left join, anything else a join.
  ghost function EvalPrefix(graph: Graph, first: Option<TriplesBlock>, subs: seq<Sub>): Bag
    decreases subs, 0
  {
    if subs == [] then EvalBlock(graph, first)
    else
      EvalEntry(graph, EvalPrefix(graph, first, subs[..|subs| - 1]), subs[|subs| - 1])
  }

  ghost function EvalEntry(graph: Graph, left: Bag, sub: Sub): Bag
    decreases sub, 0
  {
    var combined := match sub.pattern
      case UnionPattern(gou) => Join(left, EvalUnion(graph, gou.alternatives))
      case OptionalPattern(group) => LeftJoin(left, Eval(graph, group));
    Join(combined, EvalBlock(graph, sub.triplesBlock))
  }

  ghost function EvalUnion(graph: Graph, gs: seq<Group>): Bag
    decreases gs, 0
  {
    if gs == [] then [] else EvalUnion(graph, gs[..|gs| - 1]) + Eval(graph, gs[|gs| - 1])
  }

  // ---- normal form ----

  ghost function EvalLeaves(graph: Graph, leaves: seq<Leaf>): Bag
    decreases leaves, 0
  {
    if leaves == [] then [] else EvalLeaves(graph, leaves[..|leaves| - 1]) + EvalLeaf(graph, leaves[|leaves| - 1])
  }

  ghost function EvalLeaf(graph: Graph, leaf: Leaf): Bag
    decreases leaf, 1
  {
    EvalOptionals(graph, EvalBgp(graph, leaf.bgp), leaf.optionals)
  }

  ghost function EvalOptionals(graph: Graph, left: Bag, nfs: seq<NormalForm>): Bag
    decreases nfs, 0
  {
    if nfs == [] then left
    else LeftJoin(EvalOptionals(graph, left, nfs[..|nfs| - 1]), EvalLeaves(graph, nfs[|nfs| - 1].leaves))
  }

  // ---- basic graph patterns mean what section 18.3 of SPARQL 1.1 Query Language says ----

  // `m` binds exactly the variables of the patterns and turns each into a triple of the graph.
  ghost predicate IsBgpSolution(graph: Graph, tps: seq<TriplePattern>, m: Mapping) {
    && m.Keys == PatternsVars(tps)
    && forall tp :: tp in tps ==> exists t :: t in graph && Instance(tp, m) == Some(t)
  }

  lemma {:induction false} MatchTripleExact(tp: TriplePattern, t: Triple, m: Mapping)
    ensures m in MatchTriple(tp, t) <==> m.Keys == PatternVars(tp) && Instance(tp, m) == Some(t)
  {
    if m.Keys == PatternVars(tp) && Instance(tp, m) == Some(t) {
      var b := Binding(tp, t);
      assert b.Keys == m.Keys;
      forall v | v in m ensures b[v] == m[v] {
      }
      assert b == m;
    }
  }

  lemma {:induction false} SolutionsExact(graph: Graph, tp: TriplePattern, m: Mapping)
    ensures m in Solutions(graph, tp) <==> IsBgpSolution(graph, [tp], m)
  {
    assert PatternsVars([tp]) == PatternVars(tp) + PatternsVars([]);
    if graph != [] {
      SolutionsExact(graph[1..], tp, m);
      MatchTripleExact(tp, graph[0], m);
      assert tp in [tp];
      assert graph == [graph[0]] + graph[1..];
    } else {
      assert tp in [tp];
    }
  }

  lemma {:induction false} SolutionsDistinct(graph: Graph, tp: TriplePattern)
    requires NoDuplicates(graph)
    ensures NoDuplicates(Solutions(graph, tp))
  {
    if graph != [] {
      assert NoDuplicates(graph[1..]);
      SolutionsDistinct(graph[1..], tp);
      forall m | m in MatchTriple(tp, graph[0]) ensures m !in Solutions(graph[1..], tp) {
        MatchTripleExact(tp, graph[0], m);
        SolutionsExact(graph[1..], tp, m);
        assert tp in [tp];
      }
      NoDuplicatesConcat(MatchTriple(tp, graph[0]), Solutions(graph[1..], tp));
    }
  }

  lemma InstanceOfMerge(tp: TriplePattern, a: Mapping, b: Mapping)
    requires PatternVars(tp) <= a.Keys && Compatible(a, b)
    ensures Instance(tp, a + b) == Instance(tp, a) && Instance(tp, b + a) == Instance(tp, a)
  {
  }

  lemma {:induction false} ExtendMembers(a: Mapping, b: Bag, m: Mapping)
    ensures m in Extend(a, b) <==> exists y :: y in b && Compatible(a, y) && m == a + y
  {
    if b != [] {
      ExtendMembers(a, b[1..], m);
      assert b == [b[0]] + b[1..];
    }
  }

  lemma {:induction false} JoinMembers(a: Bag, b: Bag, m: Mapping)
    ensures m in Join(a, b) <==> exists x, y :: x in a && y in b && Compatible(x, y) && m == x + y
  {
    if a != [] {
      JoinMembers(a[1..], b, m);
      ExtendMembers(a[0], b, m);
      assert a == [a[0]] + a[1..];
    }
  }

  lemma JoinedSolution(graph: Graph, tps: seq<TriplePattern>, x: Mapping, y: Mapping)
    requires tps != [] && Compatible(x, y)
    requires IsBgpSolution(graph, [tps[0]], x) && IsBgpSolution(graph, tps[1..], y)
    ensures IsBgpSolution(graph, tps, x + y)
  {
    assert PatternsVars([tps[0]]) == PatternVars(tps[0]) + PatternsVars([]);
    forall tp | tp in tps ensures exists t :: t in graph && Instance(tp, x + y) == Some(t) {
      if tp == tps[0] {
        assert tp in [tps[0]];
        InstanceOfMerge(tp, x, y);
      } else {
        assert tp in tps[1..];
        MemberVars(tp, tps[1..]);
        InstanceOfMerge(tp, y, x);
      }
    }
  }

  lemma SplitSolution(graph: Graph, tps: seq<TriplePattern>, m: Mapping) returns (x: Mapping, y: Mapping)
    requires tps != [] && IsBgpSolution(graph, tps, m)
    ensures Compatible(x, y) && m == x + y
    ensures IsBgpSolution(graph, [tps[0]], x) && IsBgpSolution(graph, tps[1..], y)
  {
    x := map v | v in m && v in PatternVars(tps[0]) :: m[v];
    y := map v | v in m && v in PatternsVars(tps[1..]) :: m[v];
    assert PatternsVars([tps[0]]) == PatternVars(tps[0]) + PatternsVars([]);
    assert tps[0] in tps;
    InstanceOfMerge(tps[0], x, m);
    assert x + m == m && y + m == m;
    forall tp | tp in tps[1..] ensures exists t :: t in graph && Instance(tp, y) == Some(t) {
      assert tp in tps;
      MemberVars(tp, tps[1..]);
      InstanceOfMerge(tp, y, m);
    }
  }

  lemma {:induction false} BgpMembers(graph: Graph, tps: seq<TriplePattern>, m: Mapping)
    ensures m in EvalBgp(graph, tps) <==> IsBgpSolution(graph, tps, m)
  {
    if tps == [] {
      assert m.Keys == {} <==> m == map[];
    } else {
      var a, b := Solutions(graph, tps[0]), EvalBgp(graph, tps[1..]);
      JoinMembers(a, b, m);
      if m in Join(a, b) {
        var x, y :| x in a && y in b && Compatible(x, y) && m == x + y;
        SolutionsExact(graph, tps[0], x);
        BgpMembers(graph, tps[1..], y);
        JoinedSolution(graph, tps, x, y);
      }
      if IsBgpSolution(graph, tps, m) {
        var x, y := SplitSolution(graph, tps, m);
        SolutionsExact(graph, tps[0], x);
        BgpMembers(graph, tps[1..], y);
      }
    }
  }

  lemma {:induction false} MemberVars(tp: TriplePattern, tps: seq<TriplePattern>)
    requires tp in tps
    ensures PatternVars(tp) <= PatternsVars(tps)
  {
    if tp != tps[0] {
      MemberVars(tp, tps[1..]);
    }
  }

  // Bags over fixed domains join without producing a mapping twice.
  lemma {:induction false} JoinDistinct(a: Bag, b: Bag, va: set<Variable>, vb: set<Variable>)
    requires NoDuplicates(a) && NoDuplicates(b)
    requires forall m :: m in a ==> m.Keys == va
    requires forall m :: m in b ==> m.Keys == vb
    ensures NoDuplicates(Join(a, b))
  {
    if a != [] {
      JoinDistinct(a[1..], b, va, vb);
      ExtendDistinct(a[0], b, vb);
      forall m | m in Extend(a[0], b) ensures m !in Join(a[1..], b) {
        ExtendMembers(a[0], b, m);
        JoinMembers(a[1..], b, m);
        if m in Join(a[1..], b) {
          var y :| y in b && Compatible(a[0], y) && m == a[0] + y;
          var x', y' :| x' in a[1..] && y' in b && Compatible(x', y') && m == x' + y';
          assert x' in a && a[0] in a;
          MergeDetermines(a[0], y, x', y');
        }
      }
      NoDuplicatesConcat(Extend(a[0], b), Join(a[1..], b));
    }
  }

  lemma MergeDetermines(x: Mapping, y: Mapping, x': Mapping, y': Mapping)
    requires x.Keys == x'.Keys && y.Keys == y'.Keys
    requires Compatible(x, y) && Compatible(x', y') && x + y == x' + y'
    ensures x == x' && y == y'
  {
    forall v | v in x ensures x[v] == x'[v] {
      assert (x + y)[v] == x[v];
      assert (x' + y')[v] == x'[v];
    }
    forall v | v in y ensures y[v] == y'[v] {
      assert (x + y)[v] == y[v];
      assert (x' + y')[v] == y'[v];
    }
  }

  lemma {:induction false} ExtendDistinct(a: Mapping, b: Bag, vb: set<Variable>)
    requires NoDuplicates(b)
    requires forall m :: m in b ==> m.Keys == vb
    ensures NoDuplicates(Extend(a, b))
  {
    if b != [] {
      ExtendDistinct(a, b[1..], vb);
      forall m | m in MergeIfCompatible(a, b[0]) ensures m !in Extend(a, b[1..]) {
        ExtendMembers(a, b[1..], m);
        if m in Extend(a, b[1..]) {
          var y :| y in b[1..] && Compatible(a, y) && m == a + y;
          assert y in b && b[0] in b;
          MergeDetermines(a, b[0], a, y);
        }
      }
      NoDuplicatesConcat(MergeIfCompatible(a, b[0]), Extend(a, b[1..]));
    }
  }

  lemma {:induction false} BgpDistinct(graph: Graph, tps: seq<TriplePattern>)
    requires NoDuplicates(graph)
    ensures NoDuplicates(EvalBgp(graph, tps))
  {
    if tps != [] {
      var a, b := Solutions(graph, tps[0]), EvalBgp(graph, tps[1..]);
      SolutionsDistinct(graph, tps[0]);
      BgpDistinct(graph, tps[1..]);
      forall m | m in a ensures m.Keys == PatternVars(tps[0]) {
        SolutionsExact(graph, tps[0], m);
        assert PatternsVars([tps[0]]) == PatternVars(tps[0]) + PatternsVars([]);
      }
      forall m | m in b ensures m.Keys == PatternsVars(tps[1..]) {
        BgpMembers(graph, tps[1..], m);
      }
      JoinDistinct(a, b, PatternVars(tps[0]), PatternsVars(tps[1..]));
    }
  }

  lemma {:induction false} DistinctCount<T(!new)>(s: seq<T>, x: T)
    requires NoDuplicates(s)
    ensures multiset(s)[x] == if x in s then 1 else 0
  {
    if s != [] {
      assert s == [s[0]] + s[1..];
      DistinctCount(s[1..], x);
    }
  }

  /** A mapping is a solution of a basic graph pattern with cardinality one, or not at all. */
  lemma BgpCardinality(graph: Graph, tps: seq<TriplePattern>, m: Mapping)
    requires NoDuplicates(graph)
    ensures multiset(EvalBgp(graph, tps))[m] == if IsBgpSolution(graph, tps, m) then 1 else 0
  {
    BgpDistinct(graph, tps);
    DistinctCount(EvalBgp(graph, tps), m);
    BgpMembers(graph, tps, m);
  }

  // ---- groups entry by entry ----

  /**
   A group is evaluated from left to right: what one more entry and the block behind it do to the
   solutions so far. A union takes its alternatives together.
   */
  lemma GroupSolutions(graph: Graph, first: Option<TriplesBlock>, subs: seq<Sub>, block: Option<TriplesBlock>,
                       alternatives: seq<Group>, body: Group)
    ensures EvalUnion(graph, []) == []
    ensures EvalUnion(graph, alternatives + [body]) == EvalUnion(graph, alternatives) + Eval(graph, body)
    ensures Eval(graph, Group(first, [])) == EvalBlock(graph, first)
    ensures Eval(graph, Group(first, subs + [Sub(UnionPattern(GroupOrUnion(alternatives)), block)]))
      == Join(Join(Eval(graph, Group(first, subs)), EvalUnion(graph, alternatives)), EvalBlock(graph, block))
    ensures Eval(graph, Group(first, subs + [Sub(OptionalPattern(body), block)]))
      == Join(LeftJoin(Eval(graph, Group(first, subs)), Eval(graph, body)), EvalBlock(graph, block))
  {
    var union, optional := Sub(UnionPattern(GroupOrUnion(alternatives)), block), Sub(OptionalPattern(body), block);
    assert (subs + [union])[..|subs|] == subs && (subs + [optional])[..|subs|] == subs;
    assert (alternatives + [body])[..|alternatives|] == alternatives;
    assert EvalUnion(graph, alternatives + [body]) == EvalUnion(graph, alternatives) + Eval(graph, body);
    hide Join, LeftJoin, EvalBlock, EvalUnion;
    assert EvalPrefix(graph, first, subs + [union]) == EvalEntry(graph, EvalPrefix(graph, first, subs), union);
    assert EvalPrefix(graph, first, subs + [optional]) == EvalEntry(graph, EvalPrefix(graph, first, subs), optional);
  }

}
