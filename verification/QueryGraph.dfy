/**
 The operand dependency graph in terms of the variables of the triple patterns, for queries in which
 ids identify variables.
 */
module QueryGraph {
  import opened Wrappers
  import opened Rdf
  import opened Patterns
  import opened Emission
  import opened Alignment
  import opened OdgShape

  // ---- what the graph should hold ----

  // Within a leaf: one edge per shared variable, an unlabelled one if none is shared.
  ghost function SharedWithinLeaf(a: TriplePattern, b: TriplePattern, v: Option<Variable>): nat {
    match v
    case None => if PatternVars(a) !! PatternVars(b) then 1 else 0
    case Some(x) => if x in PatternVars(a) && x in PatternVars(b) then 1 else 0
  }

  ghost function Occurrences(nodes: seq<Node>, v: Variable): nat {
    multiset(nodes)[Var(v)]
  }

  // From a parent to a child leaf: one edge per occurrence in the parent of a shared variable.
  ghost function SharedWithChild(a: TriplePattern, b: TriplePattern, v: Option<Variable>): nat {
    match v
    case None => if PatternVars(a) !! PatternVars(b) then 1 else 0
    case Some(x) => if x in PatternVars(b) then Occurrences(Nodes(a), x) else 0
  }

  ghost function ExpectedLinks(places: seq<Place>, tps: seq<TriplePattern>, source: nat, target: nat, v: Option<Variable>): nat
    requires |places| == |tps|
  {
    if source >= |places| || target >= |places| || source == target then 0
    else if places[source] == places[target] then SharedWithinLeaf(tps[source], tps[target], v)
    else if ChildOf(places[source], places[target]) then SharedWithChild(tps[source], tps[target], v)
    else 0
  }

  function LabelOf(varIds: map<Variable, int>, v: Option<Variable>): Option<int>
    requires v.Some? ==> v.value in varIds
  {
    match v
    case None => None
    case Some(x) => Some(varIds[x])
  }

  // ---- ids stand for variables ----

  lemma {:induction false} IdCount(varIds: map<Variable, int>, nodes: seq<Node>, v: Variable)
    requires UniqueIds(varIds) && v in varIds && forall n :: n in nodes ==> NodeVars(n) <= varIds.Keys
    ensures multiset(NodesIds(varIds, nodes))[varIds[v]] == Occurrences(nodes, v)
  {
    if nodes != [] {
      var init, last := nodes[..|nodes| - 1], nodes[|nodes| - 1];
      assert nodes == init + [last];
      IdCount(varIds, init, v);
      if last.Var? {
        assert last.variable in NodeVars(last);
      }
    }
  }

  lemma {:induction false} IdOfVariable(varIds: map<Variable, int>, nodes: seq<Node>, id: int) returns (v: Variable)
    requires (forall n :: n in nodes ==> NodeVars(n) <= varIds.Keys) && id in NodesIds(varIds, nodes)
    ensures v in varIds && varIds[v] == id && Var(v) in nodes
  {
    var init, last := nodes[..|nodes| - 1], nodes[|nodes| - 1];
    if id in NodesIds(varIds, init) {
      v := IdOfVariable(varIds, init, id);
    } else {
      v := last.variable;
      assert v in NodeVars(last);
    }
  }

  lemma OccursExactly(tp: TriplePattern, v: Variable)
    ensures Var(v) in Nodes(tp) <==> v in PatternVars(tp)
    ensures Occurrences(Nodes(tp), v) > 0 <==> v in PatternVars(tp)
  {
    var nodes := Nodes(tp);
    assert nodes[0] == tp.s && nodes[1] == tp.p && nodes[2] == tp.o;
  }

  lemma IdsMeanVariables(varIds: map<Variable, int>, tp: TriplePattern, v: Variable)
    requires UniqueIds(varIds) && v in varIds && PatternVars(tp) <= varIds.Keys
    ensures varIds[v] in PatternIds(varIds, tp) <==> v in PatternVars(tp)
    ensures multiset(PatternIds(varIds, tp))[varIds[v]] == Occurrences(Nodes(tp), v)
  {
    IdCount(varIds, Nodes(tp), v);
    OccursExactly(tp, v);
  }

  lemma PatternIdOfVariable(varIds: map<Variable, int>, tp: TriplePattern, id: int) returns (v: Variable)
    requires PatternVars(tp) <= varIds.Keys && id in PatternIds(varIds, tp)
    ensures v in PatternVars(tp) && varIds[v] == id
  {
    v := IdOfVariable(varIds, Nodes(tp), id);
    OccursExactly(tp, v);
  }

  lemma DisjointMeansUnshared(varIds: map<Variable, int>, a: TriplePattern, b: TriplePattern)
    requires UniqueIds(varIds) && PatternVars(a) <= varIds.Keys && PatternVars(b) <= varIds.Keys
    ensures Disjoint(PatternIds(varIds, a), PatternIds(varIds, b)) <==> PatternVars(a) !! PatternVars(b)
  {
    hide PatternIds, PatternVars, UniqueIds;
    if Disjoint(PatternIds(varIds, a), PatternIds(varIds, b)) {
      forall v | v in PatternVars(a) ensures v !in PatternVars(b) {
        IdsMeanVariables(varIds, a, v);
        var id := varIds[v];
        assert id in PatternIds(varIds, a);
        assert id !in PatternIds(varIds, b);
        IdsMeanVariables(varIds, b, v);
      }
    }
    if PatternVars(a) !! PatternVars(b) {
      forall id | id in PatternIds(varIds, a) ensures id !in PatternIds(varIds, b) {
        var v := PatternIdOfVariable(varIds, a, id);
        IdsMeanVariables(varIds, b, v);
      }
    }
  }

  lemma LinksMeanVariables(varIds: map<Variable, int>, a: TriplePattern, b: TriplePattern, v: Option<Variable>)
    requires UniqueIds(varIds) && PatternVars(a) <= varIds.Keys && PatternVars(b) <= varIds.Keys
    requires v.Some? ==> v.value in varIds
    ensures WithinLeaf(PatternIds(varIds, a), PatternIds(varIds, b), LabelOf(varIds, v)) == SharedWithinLeaf(a, b, v)
    ensures ToChild(PatternIds(varIds, a), PatternIds(varIds, b), LabelOf(varIds, v)) == SharedWithChild(a, b, v)
  {
    hide PatternIds, PatternVars, UniqueIds, Disjoint, Occurrences, Nodes;
    match v {
      case None =>
        DisjointMeansUnshared(varIds, a, b);
      case Some(x) =>
        IdsMeanVariables(varIds, a, x);
        IdsMeanVariables(varIds, b, x);
    }
  }

  // ---- the theorem ----

  // What is known about one operand and about one edge.
  lemma OperandHasIds(nf: NormalForm, i: nat)
    requires i < |Emit(nf).odg.operands|
    ensures |Emit(nf).odg.operands| == |Emit(nf).patterns| && PatternVars(Emit(nf).patterns[i]) <= Emit(nf).varIds.Keys
    ensures Emit(nf).odg.operands[i] == PatternIds(Emit(nf).varIds, Emit(nf).patterns[i])
  {
    var order := EmitAligned(nf);
  }

  lemma EdgeIsExpected(nf: NormalForm, e: Edge)
    requires |Places(nf)| <= 256
    ensures |Places(nf)| == |Emit(nf).odg.operands| == |Emit(nf).patterns|
    ensures DependencyCount(Emit(nf).odg, e) == ExpectedDependencies(Places(nf), Emit(nf).odg.operands, e)
  {
    var order := EmitAligned(nf);
    EmitShape(nf);
  }

  lemma VariableHasId(nf: NormalForm, v: Variable)
    requires v in PatternsVars(LeavesPatterns(nf.leaves))
    ensures v in Emit(nf).varIds
  {
    var order := EmitAligned(nf);
  }

  /**
   For a query of at most 256 triple patterns and 256 variables: how often each edge occurs depends
   only on where its patterns sit and on the variables they share, and no other labels occur.
   */
  lemma GraphLinksVariables(nf: NormalForm, source: nat, target: nat, v: Option<Variable>)
    requires |Places(nf)| <= 256 && |PatternsVars(LeavesPatterns(nf.leaves))| <= 256
    requires v.Some? ==> v.value in PatternsVars(LeavesPatterns(nf.leaves))
    ensures v.Some? ==> v.value in Emit(nf).varIds
    ensures |Places(nf)| == |Emit(nf).patterns|
    ensures DependencyCount(Emit(nf).odg, Edge(source, target, LabelOf(Emit(nf).varIds, v)))
      == ExpectedLinks(Places(nf), Emit(nf).patterns, source, target, v)
  {
    hide UniqueIds, Emit, WithinLeaf, ToChild, SharedWithinLeaf, SharedWithChild, PatternIds, PatternVars, DependencyCount;
    if v.Some? {
      VariableHasId(nf, v.value);
    }
    var out := Emit(nf);
    EdgeIsExpected(nf, Edge(source, target, LabelOf(out.varIds, v)));
    EmittedIdsUnique(nf);
    if source < |out.patterns| && target < |out.patterns| {
      OperandHasIds(nf, source);
      OperandHasIds(nf, target);
      LinksMeanVariables(out.varIds, out.patterns[source], out.patterns[target], v);
    }
  }

  /** Every label is the id of a variable that both patterns mention. */
  lemma LabelsAreShared(nf: NormalForm, e: Edge) returns (v: Variable)
    requires |Places(nf)| <= 256 && |PatternsVars(LeavesPatterns(nf.leaves))| <= 256
    requires e in Emit(nf).odg.dependencies && e.varLabel.Some?
    ensures v in Emit(nf).varIds && Emit(nf).varIds[v] == e.varLabel.value
    ensures e.source < |Emit(nf).patterns| && v in PatternVars(Emit(nf).patterns[e.source])
    ensures e.target < |Emit(nf).patterns| && v in PatternVars(Emit(nf).patterns[e.target])
  {
    hide UniqueIds, Emit, PatternIds, PatternVars;
    var out := Emit(nf);
    EdgeIsExpected(nf, e);
    EmittedIdsUnique(nf);
    assert DependencyCount(out.odg, e) > 0;
    OperandHasIds(nf, e.source);
    OperandHasIds(nf, e.target);
    v := PatternIdOfVariable(out.varIds, out.patterns[e.source], e.varLabel.value);
    IdsMeanVariables(out.varIds, out.patterns[e.target], v);
  }

  // ---- the same, case by case ----

  /** Between two patterns of one leaf: one edge per shared variable, or one without a label. */
  lemma EdgesWithinLeaf(nf: NormalForm, i: nat, j: nat, v: Variable)
    requires |Places(nf)| <= 256 && |PatternsVars(LeavesPatterns(nf.leaves))| <= 256
    requires v in PatternsVars(LeavesPatterns(nf.leaves))
    requires i < |Places(nf)| && j < |Places(nf)| && i != j && Places(nf)[i] == Places(nf)[j]
    ensures v in Emit(nf).varIds && |Places(nf)| == |Emit(nf).patterns|
    ensures multiset(Emit(nf).odg.dependencies)[Edge(i, j, Some(Emit(nf).varIds[v]))]
      == if v in PatternVars(Emit(nf).patterns[i]) && v in PatternVars(Emit(nf).patterns[j]) then 1 else 0
    ensures multiset(Emit(nf).odg.dependencies)[Edge(i, j, None)]
      == if PatternVars(Emit(nf).patterns[i]) !! PatternVars(Emit(nf).patterns[j]) then 1 else 0
  {
    hide Emit, PatternVars;
    GraphLinksVariables(nf, i, j, Some(v));
    GraphLinksVariables(nf, i, j, None);
  }

  /**
   From a pattern to one that sits directly in an OPTIONAL of its leaf: one edge per position at which
   it has a variable of the other, or one without a label.
   */
  lemma EdgesToChild(nf: NormalForm, i: nat, j: nat, v: Variable)
    requires |Places(nf)| <= 256 && |PatternsVars(LeavesPatterns(nf.leaves))| <= 256
    requires v in PatternsVars(LeavesPatterns(nf.leaves))
    requires i < |Places(nf)| && j < |Places(nf)|
    requires |Places(nf)[j]| == |Places(nf)[i]| + 1 && Places(nf)[j][..|Places(nf)[i]|] == Places(nf)[i]
    ensures v in Emit(nf).varIds && |Places(nf)| == |Emit(nf).patterns|
    ensures
      var tp := Emit(nf).patterns[i];
      multiset(Emit(nf).odg.dependencies)[Edge(i, j, Some(Emit(nf).varIds[v]))] ==
        if v in PatternVars(Emit(nf).patterns[j])
        then (if tp.s == Var(v) then 1 else 0) + (if tp.p == Var(v) then 1 else 0) + (if tp.o == Var(v) then 1 else 0)
        else 0
    ensures multiset(Emit(nf).odg.dependencies)[Edge(i, j, None)]
      == if PatternVars(Emit(nf).patterns[i]) !! PatternVars(Emit(nf).patterns[j]) then 1 else 0
  {
    hide Emit, PatternVars;
    GraphLinksVariables(nf, i, j, Some(v));
    GraphLinksVariables(nf, i, j, None);
  }

  /** There are no other edges: none between unrelated leaves, and none from a child to its parent. */
  lemma NoOtherEdges(nf: NormalForm, e: Edge)
    requires |Places(nf)| <= 256 && e in Emit(nf).odg.dependencies
    ensures e.source < |Places(nf)| && e.target < |Places(nf)| && e.source != e.target
    ensures
      var p, q := Places(nf)[e.source], Places(nf)[e.target];
      p == q || (|q| == |p| + 1 && q[..|p|] == p)
  {
    EdgeIsExpected(nf, e);
    hide Emit;
    assert DependencyCount(Emit(nf).odg, e) > 0;
  }

  /**
   Two operands are connected, once in each direction, exactly if they sit directly in different
   OPTIONALs of one leaf, in whatever union branches.
   */
  lemma ConnectionsExactly(nf: NormalForm, i: nat, j: nat)
    requires |Places(nf)| <= 256
    ensures multiset(Emit(nf).odg.connections)[Connection(i, j)] ==
      if && i < |Places(nf)| && j < |Places(nf)|
         && |Places(nf)[i]| == |Places(nf)[j]| > 0
         && Places(nf)[i][..|Places(nf)[i]| - 1] == Places(nf)[j][..|Places(nf)[j]| - 1]
         && Places(nf)[i][|Places(nf)[i]| - 1].optional != Places(nf)[j][|Places(nf)[j]| - 1].optional
      then 1 else 0
  {
    EmitShape(nf);
    hide Emit;
    assert ConnectionCount(Emit(nf).odg, Connection(i, j)) == ExpectedConnections(Places(nf), Connection(i, j));
  }

}
