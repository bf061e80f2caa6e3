/**
 Slicing the graph into operands, and counting the solutions of a single triple pattern from the
 size of its slice instead of evaluating it.
 */
module Counting {
  import opened Wrappers
  import opened Sequences
  import opened Rdf
  import opened Bags
  import opened Entries
  import opened Semantics
  import opened Alignment

  // ---- slices ----

  type Row = seq<Term>

  predicate PartAgrees(part: Option<Term>, t: Term) {
    part.None? || part.value == t
  }

  predicate Agrees(key: SliceKey, t: Triple)
    requires |key| == 3
  {
    PartAgrees(key[0], t.s) && PartAgrees(key[1], t.p) && PartAgrees(key[2], t.o)
  }

  function OpenPart(part: Option<Term>, t: Term): Row {
    if part.None? then [t] else []
  }

  // What a triple holds at the open positions of a key.
  function OpenParts(key: SliceKey, t: Triple): Row
    requires |key| == 3
  {
    OpenPart(key[0], t.s) + OpenPart(key[1], t.p) + OpenPart(key[2], t.o)
  }

  function RowsOf(key: SliceKey, t: Triple): seq<Row>
    requires |key| == 3
  {
    if Agrees(key, t) then [OpenParts(key, t)] else []
  }

  // The content of a slice: what every triple that agrees with the key holds at its open positions.
  function Rows(graph: Graph, key: SliceKey): seq<Row>
    requires |key| == 3
  {
    if graph == [] then [] else RowsOf(key, graph[0]) + Rows(graph[1..], key)
  }

  /**
   A slice takes the triples of the graph one by one: a triple gives one row exactly if it has the
   fixed terms of the key, and the row lists its other terms.
   */
  lemma {:induction false} RowsExactly(graph: Graph, t: Triple, tp: TriplePattern)
    ensures Rows([], SliceKeyOf(tp)) == []
    ensures Rows(graph + [t], SliceKeyOf(tp)) == Rows(graph, SliceKeyOf(tp)) +
      if (tp.s.Fixed? ==> tp.s.term == t.s) && (tp.p.Fixed? ==> tp.p.term == t.p) && (tp.o.Fixed? ==> tp.o.term == t.o)
      then [(if tp.s.Var? then [t.s] else []) + (if tp.p.Var? then [t.p] else []) + (if tp.o.Var? then [t.o] else [])] else []
  {
    if graph == [] {
      assert [t][1..] == [];
      assert [] + [t] == [t];
    } else {
      assert (graph + [t])[1..] == graph[1..] + [t];
      RowsExactly(graph[1..], t, tp);
    }
  }

  // A key without open positions asks for membership; any other key for a smaller trie.
  datatype Slice = Contained(found: bool) | Subtrie(rows: seq<Row>)

  function FixedDepth(key: SliceKey): nat
    requires |key| == 3
  {
    (if key[0].Some? then 1 else 0) + (if key[1].Some? then 1 else 0) + (if key[2].Some? then 1 else 0)
  }

  function SliceOf(graph: Graph, key: SliceKey): Slice
    requires |key| == 3
  {
    if FixedDepth(key) == 3 then Contained(Triple(key[0].value, key[1].value, key[2].value) in graph)
    else Subtrie(Rows(graph, key))
  }

  lemma {:induction false} GroundRows(graph: Graph, key: SliceKey)
    requires NoDuplicates(graph) && |key| == 3 && FixedDepth(key) == 3
    ensures Rows(graph, key) == if Triple(key[0].value, key[1].value, key[2].value) in graph then [[]] else []
  {
    if graph != [] {
      var t := Triple(key[0].value, key[1].value, key[2].value);
      GroundRows(graph[1..], key);
      assert graph == [graph[0]] + graph[1..];
      assert OpenParts(key, graph[0]) == [];
      assert RowsOf(key, graph[0]) == if graph[0] == t then [[]] else [];
      assert t == graph[0] ==> t !in graph[1..];
    }
  }

  /** Whatever the key, the operand made from its slice has one row per matching triple. */
  method GenerateOperands(graph: Graph, keys: seq<SliceKey>) returns (operands: seq<seq<Row>>)
    requires NoDuplicates(graph) && forall i :: 0 <= i < |keys| ==> |keys[i]| == 3
    ensures |operands| == |keys|
    ensures forall i :: 0 <= i < |keys| ==> operands[i] == Rows(graph, keys[i])
  {
    hide NoDuplicates, Rows;
    operands := [];
    for i := 0 to |keys|
      invariant |operands| == i
      invariant forall k :: 0 <= k < i ==> operands[k] == Rows(graph, keys[k])
    {
      var slice := SliceOf(graph, keys[i]);
      if FixedDepth(keys[i]) == 3 {
        GroundRows(graph, keys[i]);
        var operand: seq<Row> := [];
        if slice.found {
          operand := [[]];
        }
        operands := operands + [operand];
      } else {
        operands := operands + [slice.rows];
      }
    }
  }

  // ---- operands have the solutions of their patterns ----

  function OpenVar(n: Node): seq<Variable> {
    match n
    case Var(v) => [v]
    case Fixed(_) => []
  }

  function OpenVars(tp: TriplePattern): seq<Variable> {
    OpenVar(tp.s) + OpenVar(tp.p) + OpenVar(tp.o)
  }

  function RowMapping(vars: seq<Variable>, row: Row): Mapping
    requires |vars| == |row|
  {
    if vars == [] then map[] else map[vars[0] := row[0]] + RowMapping(vars[1..], row[1..])
  }

  ghost predicate Fits(vars: seq<Variable>, row: Row, m: Mapping)
    requires |vars| == |row|
  {
    forall i :: 0 <= i < |vars| ==> vars[i] in m && m[vars[i]] == row[i]
  }

  // A row is a solution unless it gives one variable two terms.
  ghost function RowSolutions(vars: seq<Variable>, rows: seq<Row>): Bag
    requires forall i :: 0 <= i < |rows| ==> |rows[i]| == |vars|
  {
    if rows == [] then []
    else
      (if Fits(vars, rows[0], RowMapping(vars, rows[0])) then [RowMapping(vars, rows[0])] else [])
      + RowSolutions(vars, rows[1..])
  }

  lemma MergeAssoc(a: Mapping, b: Mapping, c: Mapping)
    ensures (a + b) + c == a + (b + c)
  {
  }

  lemma {:induction false} RowMappingConcat(a: seq<Variable>, b: seq<Variable>, r: Row, q: Row)
    requires |a| == |r| && |b| == |q|
    ensures RowMapping(a + b, r + q) == RowMapping(a, r) + RowMapping(b, q)
  {
    if a == [] {
      assert a + b == b && r + q == q;
    } else {
      assert (a + b)[1..] == a[1..] + b && (r + q)[1..] == r[1..] + q;
      RowMappingConcat(a[1..], b, r[1..], q);
      MergeAssoc(map[a[0] := r[0]], RowMapping(a[1..], r[1..]), RowMapping(b, q));
    }
  }

  lemma FitsConcat(a: seq<Variable>, b: seq<Variable>, r: Row, q: Row, m: Mapping)
    requires |a| == |r| && |b| == |q|
    ensures Fits(a + b, r + q, m) <==> Fits(a, r, m) && Fits(b, q, m)
  {
    if Fits(a + b, r + q, m) {
      forall i | 0 <= i < |a| ensures a[i] in m && m[a[i]] == r[i] {
        assert (a + b)[i] == a[i] && (r + q)[i] == r[i];
      }
      forall i | 0 <= i < |b| ensures b[i] in m && m[b[i]] == q[i] {
        assert (a + b)[|a| + i] == b[i] && (r + q)[|a| + i] == q[i];
      }
    }
  }

  lemma NodeFits(n: Node, t: Term, m: Mapping)
    ensures |OpenVar(n)| == |OpenPart(KeyPart(n), t)|
    ensures RowMapping(OpenVar(n), OpenPart(KeyPart(n), t)) == NodeBinding(n, t)
    ensures NodeInstance(n, m) == Some(t) <==>
      PartAgrees(KeyPart(n), t) && Fits(OpenVar(n), OpenPart(KeyPart(n), t), m)
  {
    if n.Var? {
      assert RowMapping([n.variable], [t]) == map[n.variable := t] + RowMapping([], []);
      assert Fits([n.variable], [t], m) <==> n.variable in m && m[n.variable] == t by {
        assert [n.variable][0] == n.variable && [t][0] == t;
      }
    }
  }

  // A triple is a solution exactly when it is in the slice and its row fits.
  lemma TripleFits(tp: TriplePattern, t: Triple)
    ensures |OpenVars(tp)| == |OpenParts(SliceKeyOf(tp), t)|
    ensures RowMapping(OpenVars(tp), OpenParts(SliceKeyOf(tp), t)) == Binding(tp, t)
    ensures Instance(tp, Binding(tp, t)) == Some(t) <==>
      Agrees(SliceKeyOf(tp), t) && Fits(OpenVars(tp), OpenParts(SliceKeyOf(tp), t), Binding(tp, t))
  {
    hide RowMapping, Fits, OpenVar, OpenPart, NodeBinding, KeyPart, NodeInstance, PartAgrees;
    var m := Binding(tp, t);
    NodeFits(tp.s, t.s, m);
    NodeFits(tp.p, t.p, m);
    NodeFits(tp.o, t.o, m);
    var a, b, c := OpenVar(tp.s), OpenVar(tp.p), OpenVar(tp.o);
    var r, q, z := OpenPart(KeyPart(tp.s), t.s), OpenPart(KeyPart(tp.p), t.p), OpenPart(KeyPart(tp.o), t.o);
    RowMappingConcat(a, b, r, q);
    RowMappingConcat(a + b, c, r + q, z);
    FitsConcat(a, b, r, q, m);
    FitsConcat(a + b, c, r + q, z, m);
  }

  lemma {:induction false} RowsFitVars(graph: Graph, tp: TriplePattern)
    ensures forall i :: 0 <= i < |Rows(graph, SliceKeyOf(tp))| ==> |Rows(graph, SliceKeyOf(tp))[i]| == |OpenVars(tp)|
  {
    if graph != [] {
      RowsFitVars(graph[1..], tp);
      TripleFits(tp, graph[0]);
    }
  }

  /**
   An operand loses nothing: reading its rows against the variables at the open positions gives the
   solutions of the pattern, in the order of the graph, with repeated variables taken into account.
   */
  lemma {:induction false} OperandHasSolutions(graph: Graph, tp: TriplePattern)
    ensures forall i :: 0 <= i < |Rows(graph, SliceKeyOf(tp))| ==> |Rows(graph, SliceKeyOf(tp))[i]| == |OpenVars(tp)|
    ensures RowSolutions(OpenVars(tp), Rows(graph, SliceKeyOf(tp))) == Solutions(graph, tp)
  {
    RowsFitVars(graph, tp);
    if graph != [] {
      var key, vars, t := SliceKeyOf(tp), OpenVars(tp), graph[0];
      OperandHasSolutions(graph[1..], tp);
      TripleFits(tp, t);
      if Agrees(key, t) {
        assert Rows(graph, key) == [OpenParts(key, t)] + Rows(graph[1..], key);
        assert Rows(graph, key)[1..] == Rows(graph[1..], key);
      } else {
        assert Rows(graph, key) == Rows(graph[1..], key);
      }
    }
  }

  // ---- evaluation ----

  function Projected(m: Mapping, projection: seq<Variable>): (key: seq<Option<Term>>)
    ensures |key| == |projection|
    ensures forall i :: 0 <= i < |projection| ==> key[i] == if projection[i] in m then Some(m[projection[i]]) else None
  {
    if projection == [] then []
    else [if projection[0] in m then Some(m[projection[0]]) else None] + Projected(m, projection[1..])
  }

  function ProjectedAll(bag: Bag, projection: seq<Variable>): seq<seq<Option<Term>>> {
    if bag == [] then [] else [Projected(bag[0], projection)] + ProjectedAll(bag[1..], projection)
  }

  /**
   What evaluation may yield for these solutions: entries that add up to the projected solutions
   however they are grouped or, with DISTINCT, one entry for each projected solution.
   */
  ghost predicate Evaluates(solutions: Bag, projection: seq<Variable>, distinct: bool, entries: seq<Entry>) {
    if distinct then
      && NoDuplicates(EntryKeys(entries))
      && (forall i :: 0 <= i < |entries| ==> entries[i].value == 1)
      && (forall key :: key in EntryKeys(entries) <==> key in ProjectedAll(solutions, projection))
    else
      multiset(Expanded(entries)) == multiset(ProjectedAll(solutions, projection))
  }

  // ---- when the slice size is the number of solutions ----

  predicate RepeatsVariable(tp: TriplePattern) {
    || (tp.s.Var? && (tp.s == tp.p || tp.s == tp.o))
    || (tp.p.Var? && tp.p == tp.o)
  }

  predicate IsCountableBySize(tp: TriplePattern, projection: seq<Variable>, distinct: bool) {
    !RepeatsVariable(tp) && (distinct ==> forall v :: v in PatternVars(tp) ==> v in projection)
  }

  lemma SolutionsInSlice(tp: TriplePattern, t: Triple)
    ensures |MatchTriple(tp, t)| <= |RowsOf(SliceKeyOf(tp), t)|
    ensures !RepeatsVariable(tp) ==> |MatchTriple(tp, t)| == |RowsOf(SliceKeyOf(tp), t)|
  {
    var b := Binding(tp, t);
    if tp.s.Var? && !RepeatsVariable(tp) {
      assert b[tp.s.variable] == t.s;
    }
    if tp.p.Var? && !RepeatsVariable(tp) {
      assert b[tp.p.variable] == t.p;
    }
    if tp.o.Var? {
      assert b[tp.o.variable] == t.o;
    }
  }

  lemma {:induction false} SliceSize(graph: Graph, tp: TriplePattern)
    requires !RepeatsVariable(tp)
    ensures |Rows(graph, SliceKeyOf(tp))| == |Solutions(graph, tp)|
  {
    if graph != [] {
      SliceSize(graph[1..], tp);
      SolutionsInSlice(tp, graph[0]);
    }
  }

  lemma {:induction false} ProjectedAllSize(bag: Bag, projection: seq<Variable>)
    ensures |ProjectedAll(bag, projection)| == |bag|
    ensures forall i :: 0 <= i < |bag| ==> ProjectedAll(bag, projection)[i] == Projected(bag[i], projection)
  {
    if bag != [] {
      ProjectedAllSize(bag[1..], projection);
    }
  }

  lemma ProjectionForgetsNothing(a: Mapping, b: Mapping, projection: seq<Variable>)
    requires a.Keys == b.Keys && forall v :: v in a ==> v in projection
    requires Projected(a, projection) == Projected(b, projection)
    ensures a == b
  {
    forall v | v in a ensures a[v] == b[v] {
      var i :| 0 <= i < |projection| && projection[i] == v;
      assert Projected(a, projection)[i] == Some(a[v]) && Projected(b, projection)[i] == Some(b[v]);
    }
  }

  lemma ProjectedSolutionsDistinct(graph: Graph, tp: TriplePattern, projection: seq<Variable>)
    requires NoDuplicates(graph) && forall v :: v in PatternVars(tp) ==> v in projection
    ensures NoDuplicates(ProjectedAll(Solutions(graph, tp), projection))
  {
    var bag := Solutions(graph, tp);
    ProjectedAllSize(bag, projection);
    SolutionsDistinct(graph, tp);
    forall m | m in bag ensures m.Keys == PatternVars(tp) {
      SolutionsExact(graph, tp, m);
      assert PatternsVars([tp]) == PatternVars(tp) + PatternsVars([]);
    }
    forall i, j | 0 <= i < j < |bag| ensures Projected(bag[i], projection) != Projected(bag[j], projection) {
      assert bag[i] in bag && bag[j] in bag;
      if Projected(bag[i], projection) == Projected(bag[j], projection) {
        ProjectionForgetsNothing(bag[i], bag[j], projection);
        assert false;
      }
    }
  }

  lemma FastCountAgrees(graph: Graph, tp: TriplePattern, projection: seq<Variable>, distinct: bool, entries: seq<Entry>)
    requires NoDuplicates(graph) && IsCountableBySize(tp, projection, distinct)
    requires Evaluates(Solutions(graph, tp), projection, distinct, entries)
    ensures |Rows(graph, SliceKeyOf(tp))| == Total(entries)
  {
    var keys := ProjectedAll(Solutions(graph, tp), projection);
    SliceSize(graph, tp);
    ProjectedAllSize(Solutions(graph, tp), projection);
    if distinct {
      UnitTotal(entries);
      ProjectedSolutionsDistinct(graph, tp, projection);
      var members := set key | key in keys;
      DistinctSize(keys, members);
      DistinctSize(EntryKeys(entries), members);
    } else {
      ExpandedSize(entries);
      assert |multiset(Expanded(entries))| == |multiset(keys)|;
    }
  }

  // ---- when it is not ----

  function Filled(n: Node, t: Term): Term {
    match n
    case Var(_) => t
    case Fixed(c) => c
  }

  // A triple with different terms wherever the pattern has variables.
  function AllDifferent(tp: TriplePattern): Triple {
    Triple(Filled(tp.s, Iri("0")), Filled(tp.p, Iri("1")), Filled(tp.o, Iri("2")))
  }

  lemma RepeatedVariableMiscounts(tp: TriplePattern)
    requires RepeatsVariable(tp)
    ensures |Rows([AllDifferent(tp)], SliceKeyOf(tp))| == 1
    ensures Solutions([AllDifferent(tp)], tp) == []
  {
    var t := AllDifferent(tp);
    assert "0"[0] != "1"[0] && "0"[0] != "2"[0] && "1"[0] != "2"[0];
    assert Iri("0") != Iri("1") && Iri("0") != Iri("2") && Iri("1") != Iri("2");
    assert [t][1..] == [];
  }

  function FilledFor(n: Node, v: Variable, t: Term): Term {
    match n
    case Var(u) => if u == v then t else Iri("2")
    case Fixed(c) => c
  }

  // A triple in which the variable `v` of the pattern stands for `t`.
  function TripleFor(tp: TriplePattern, v: Variable, t: Term): Triple {
    Triple(FilledFor(tp.s, v, t), FilledFor(tp.p, v, t), FilledFor(tp.o, v, t))
  }

  function MappingFor(tp: TriplePattern, v: Variable, t: Term): Mapping {
    map u | u in PatternVars(tp) :: if u == v then t else Iri("2")
  }

  lemma NodeForMatches(n: Node, v: Variable, t: Term, m: Mapping)
    requires forall u :: u in NodeVars(n) ==> u in m && m[u] == if u == v then t else Iri("2")
    ensures NodeInstance(n, m) == Some(FilledFor(n, v, t)) && PartAgrees(KeyPart(n), FilledFor(n, v, t))
  {
  }

  lemma TripleForMatches(tp: TriplePattern, v: Variable, t: Term)
    requires v in PatternVars(tp)
    ensures MatchTriple(tp, TripleFor(tp, v, t)) == [MappingFor(tp, v, t)]
    ensures |RowsOf(SliceKeyOf(tp), TripleFor(tp, v, t))| == 1
  {
    var m := MappingFor(tp, v, t);
    NodeForMatches(tp.s, v, t, m);
    NodeForMatches(tp.p, v, t, m);
    NodeForMatches(tp.o, v, t, m);
    MatchTripleExact(tp, TripleFor(tp, v, t), m);
    hide NodeInstance, NodeBinding, FilledFor, PartAgrees, KeyPart, Binding;
  }

  lemma TwoTriples(t: Triple, u: Triple, tp: TriplePattern)
    ensures Solutions([t, u], tp) == MatchTriple(tp, t) + MatchTriple(tp, u)
    ensures |Rows([t, u], SliceKeyOf(tp))| == |RowsOf(SliceKeyOf(tp), t)| + |RowsOf(SliceKeyOf(tp), u)|
  {
    hide MatchTriple, RowsOf;
    var second: Graph, none: Graph := [u], [];
    assert [t, u][1..] == second && second[1..] == none;
    assert Solutions(second, tp) == MatchTriple(tp, u) + Solutions(none, tp);
    assert Rows(second, SliceKeyOf(tp)) == RowsOf(SliceKeyOf(tp), u) + Rows(none, SliceKeyOf(tp));
  }

  lemma OneEntryForTwo(a: Mapping, b: Mapping, projection: seq<Variable>)
    requires Projected(a, projection) == Projected(b, projection)
    ensures Evaluates([a, b], projection, true, [Entry(Projected(a, projection), 1)])
    ensures Total([Entry(Projected(a, projection), 1)]) == 1
  {
    hide Projected;
    var key := Projected(a, projection);
    var entries := [Entry(key, 1)];
    ProjectedAllSize([a, b], projection);
    assert ProjectedAll([a, b], projection) == [key, key] && entries[..0] == [];
    UnitTotal(entries);
    hide ProjectedAll;
    assert EntryKeys(entries) == [key];
  }

  lemma HiddenVariableMiscounts(tp: TriplePattern, projection: seq<Variable>, v: Variable) returns (graph: Graph, entries: seq<Entry>)
    requires v in PatternVars(tp) && v !in projection
    ensures NoDuplicates(graph) && |Rows(graph, SliceKeyOf(tp))| == 2
    ensures Evaluates(Solutions(graph, tp), projection, true, entries) && Total(entries) == 1
  {
    hide MatchTriple, Rows, RowsOf, TripleFor, Solutions, Evaluates, Total;
    var t, u := TripleFor(tp, v, Iri("0")), TripleFor(tp, v, Iri("1"));
    var a, b := MappingFor(tp, v, Iri("0")), MappingFor(tp, v, Iri("1"));
    TripleForMatches(tp, v, Iri("0"));
    TripleForMatches(tp, v, Iri("1"));
    assert t != u by {
      assert "0"[0] != "1"[0];
      assert a[v] != b[v];
    }
    graph := [t, u];
    TwoTriples(t, u, tp);
    assert Projected(a, projection) == Projected(b, projection);
    entries := [Entry(Projected(a, projection), 1)];
    OneEntryForTwo(a, b, projection);
    assert Solutions(graph, tp) == [a, b];
  }

  // The slice size is the number of solutions of the pattern, whatever the graph and the grouping.
  ghost predicate SliceCountsPattern(tp: TriplePattern, projection: seq<Variable>, distinct: bool) {
    forall graph, entries ::
      NoDuplicates(graph) && Evaluates(Solutions(graph, tp), projection, distinct, entries) ==>
      |Rows(graph, SliceKeyOf(tp))| == Total(entries)
  }

  /**
   For the solutions of a lone pattern: the slice size counts them on every graph if and only if no
   variable repeats and DISTINCT, if there, comes with all variables of the pattern projected.
   */
  lemma SliceCountsPatternExactly(tp: TriplePattern, projection: seq<Variable>, distinct: bool)
    ensures SliceCountsPattern(tp, projection, distinct) <==> IsCountableBySize(tp, projection, distinct)
  {
    if IsCountableBySize(tp, projection, distinct) {
      forall graph, entries | NoDuplicates(graph) && Evaluates(Solutions(graph, tp), projection, distinct, entries)
        ensures |Rows(graph, SliceKeyOf(tp))| == Total(entries)
      {
        FastCountAgrees(graph, tp, projection, distinct, entries);
      }
    } else {
      var graph, entries := Miscount(tp, projection, distinct);
    }
  }

  lemma {:induction false} Miscount(tp: TriplePattern, projection: seq<Variable>,
                                    distinct: bool) returns (graph: Graph, entries: seq<Entry>)
    requires !IsCountableBySize(tp, projection, distinct)
    ensures NoDuplicates(graph) && Evaluates(Solutions(graph, tp), projection, distinct, entries)
    ensures |Rows(graph, SliceKeyOf(tp))| != Total(entries)
  {
    if RepeatsVariable(tp) {
      RepeatedVariableMiscounts(tp);
      graph, entries := [AllDifferent(tp)], [];
    } else {
      var v :| v in PatternVars(tp) && v !in projection;
      graph, entries := HiddenVariableMiscounts(tp, projection, v);
    }
  }

}
