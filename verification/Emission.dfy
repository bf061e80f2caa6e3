/**
 What the visitor emits while it walks a normal form: triple patterns, variable ids, and the operand
 dependency graph with its operands, dependencies and connections. These are the functions the
 visitor's methods are specified by.
 */
module Emission {
  import opened Wrappers
  import opened Rdf
  import opened Patterns

  // ---- the operand dependency graph, an external data structure ----

  datatype Edge = Edge(source: nat, target: nat, varLabel: Option<int>)

  datatype Connection = Connection(source: nat, target: nat)

  // Operands are numbered in the order they are added; each carries the ids of its variables.
  datatype Odg = Odg(operands: seq<seq<int>>, dependencies: seq<Edge>, connections: seq<Connection>)

  const EMPTY_ODG := Odg([], [], [])

  // Operand ids are kept in 8 unsigned bits.
  function OperandId(n: nat): nat {
    n % 256
  }

  function OperandVarIds(operands: seq<seq<int>>, id: nat): seq<int> {
    if id < |operands| then operands[id] else []
  }

  // ---- variable ids ----

  // The id of the first variable: the character 'a'.
  const FIRST_VAR_ID := 97

  // The successor of a signed 8-bit character.
  function NextVarId(id: int): int {
    if id == 127 then -128 else id + 1
  }

  datatype Output = Output(patterns: seq<TriplePattern>, varIds: map<Variable, int>, nextId: int, odg: Odg)

  const EMPTY_OUTPUT := Output([], map[], FIRST_VAR_ID, EMPTY_ODG)

  function Register(out: Output, v: Variable): Output {
    if v in out.varIds then out
    else out.(varIds := out.varIds[v := out.nextId], nextId := NextVarId(out.nextId))
  }

  function RegisterNode(out: Output, n: Node): Output {
    match n
    case Var(v) => Register(out, v)
    case Fixed(_) => out
  }

  function RegisterPattern(out: Output, tp: TriplePattern): Output {
    RegisterNode(RegisterNode(RegisterNode(out, tp.s), tp.p), tp.o)
  }

  // The ids of the variables among `nodes`, in order and with repetitions.
  function NodesIds(varIds: map<Variable, int>, nodes: seq<Node>): seq<int>
    requires forall n :: n in nodes ==> NodeVars(n) <= varIds.Keys
  {
    if nodes == [] then []
    else
      var init, last := NodesIds(varIds, nodes[..|nodes| - 1]), nodes[|nodes| - 1];
      match last
      case Var(v) =>
        assert v in NodeVars(last);
        init + [varIds[v]]
      case Fixed(_) => init
  }

  function PatternIds(varIds: map<Variable, int>, tp: TriplePattern): seq<int>
    requires PatternVars(tp) <= varIds.Keys
  {
    NodesIds(varIds, Nodes(tp))
  }

  // ---- dependencies within a leaf ----

  // The distinct ids of `ids` that also occur in `others`, by first occurrence.
  function SharedIds(ids: seq<int>, others: seq<int>): seq<int> {
    if ids == [] then []
    else
      var shared, id := SharedIds(ids[..|ids| - 1], others), ids[|ids| - 1];
      if id in others && id !in shared then shared + [id] else shared
  }

  function BothWays(a: nat, b: nat, varLabel: Option<int>): seq<Edge> {
    [Edge(a, b, varLabel), Edge(b, a, varLabel)]
  }

  function LabelledBothWays(a: nat, b: nat, labels: seq<int>): seq<Edge> {
    if labels == [] then []
    else LabelledBothWays(a, b, labels[..|labels| - 1]) + BothWays(a, b, Some(labels[|labels| - 1]))
  }

  function PairEdges(a: nat, aIds: seq<int>, b: nat, bIds: seq<int>): seq<Edge> {
    var shared := SharedIds(bIds, aIds);
    if shared == [] then BothWays(a, b, None) else LabelledBothWays(a, b, shared)
  }

  // The edges of a new operand with the operands of its group, the latest operand first.
  function GroupEdges(operands: seq<seq<int>>, group: seq<nat>, id: nat, ids: seq<int>): seq<Edge> {
    if group == [] then []
    else GroupEdges(operands, group[1..], id, ids) + PairEdges(group[0], OperandVarIds(operands, group[0]), id, ids)
  }

  // The output so far and the operands of the leaf under construction.
  datatype Scope = Scope(out: Output, group: seq<nat>)

  function AddPattern(s: Scope, tp: TriplePattern): Scope
    requires PatternVars(tp) <= s.out.varIds.Keys
  {
    var odg := s.out.odg;
    var ids := PatternIds(s.out.varIds, tp);
    var id, operands := OperandId(|odg.operands|), odg.operands + [ids];
    var odg' := Odg(operands, odg.dependencies + GroupEdges(operands, s.group, id, ids), odg.connections);
    Scope(s.out.(patterns := s.out.patterns + [tp], odg := odg'), s.group + [id])
  }

  lemma RegisterPatternCovers(out: Output, tp: TriplePattern)
    ensures PatternVars(tp) <= RegisterPattern(out, tp).varIds.Keys
  {
  }

  function EmitPattern(s: Scope, tp: TriplePattern): Scope {
    RegisterPatternCovers(s.out, tp);
    AddPattern(s.(out := RegisterPattern(s.out, tp)), tp)
  }

  function EmitPatterns(s: Scope, tps: seq<TriplePattern>): Scope {
    if tps == [] then s else EmitPattern(EmitPatterns(s, tps[..|tps| - 1]), tps[|tps| - 1])
  }

  lemma {:induction false} EmitPatternsConcat(s: Scope, a: seq<TriplePattern>, b: seq<TriplePattern>)
    ensures EmitPatterns(s, a + b) == EmitPatterns(EmitPatterns(s, a), b)
  {
    if b == [] {
      assert a + b == a;
    } else {
      assert (a + b)[..|a + b| - 1] == a + b[..|b| - 1];
      EmitPatternsConcat(s, a, b[..|b| - 1]);
    }
  }

  // ---- dependencies and connections between groups ----

  function Directed(from: nat, to: nat, varLabel: Option<int>, bidirectional: bool): seq<Edge> {
    [Edge(from, to, varLabel)] + if bidirectional then [Edge(to, from, varLabel)] else []
  }

  // One edge per id of `fromIds`, repetitions included, that occurs in `toIds`.
  function LabelledEdges(from: nat, fromIds: seq<int>, to: nat, toIds: seq<int>, bidirectional: bool): seq<Edge> {
    if fromIds == [] then []
    else
      var id := fromIds[|fromIds| - 1];
      LabelledEdges(from, fromIds[..|fromIds| - 1], to, toIds, bidirectional)
      + if id in toIds then Directed(from, to, Some(id), bidirectional) else []
  }

  function DependencyEdges(operands: seq<seq<int>>, from: nat, to: nat, bidirectional: bool): seq<Edge> {
    var edges := LabelledEdges(from, OperandVarIds(operands, from), to, OperandVarIds(operands, to), bidirectional);
    if edges == [] then Directed(from, to, None, bidirectional) else edges
  }

  function EdgesToGroup(operands: seq<seq<int>>, from: nat, group: seq<nat>, bidirectional: bool): seq<Edge> {
    if group == [] then []
    else EdgesToGroup(operands, from, group[..|group| - 1], bidirectional)
         + DependencyEdges(operands, from, group[|group| - 1], bidirectional)
  }

  function EdgesBetween(operands: seq<seq<int>>, prev: seq<nat>, cur: seq<nat>, bidirectional: bool): seq<Edge> {
    if prev == [] then []
    else EdgesBetween(operands, prev[..|prev| - 1], cur, bidirectional)
         + EdgesToGroup(operands, prev[|prev| - 1], cur, bidirectional)
  }

  lemma EdgesBetweenStep(operands: seq<seq<int>>, prev: seq<nat>, i: nat, cur: seq<nat>, bidirectional: bool)
    requires i < |prev|
    ensures EdgesBetween(operands, prev[..i + 1], cur, bidirectional)
         == EdgesBetween(operands, prev[..i], cur, bidirectional) + EdgesToGroup(operands, prev[i], cur, bidirectional)
  {
    assert prev[..i + 1][..i] == prev[..i];
  }

  // Connections of `id` with the operands of earlier optionals: those not of the current one.
  function ConnectionsOf(id: nat, opts: seq<nat>, union: seq<nat>): seq<Connection> {
    if opts == [] then []
    else
      var op := opts[|opts| - 1];
      ConnectionsOf(id, opts[..|opts| - 1], union)
      + if op in union then [] else [Connection(id, op), Connection(op, id)]
  }

  function ConnectionsBetween(group: seq<nat>, opts: seq<nat>, union: seq<nat>): seq<Connection> {
    if group == [] then []
    else ConnectionsBetween(group[..|group| - 1], opts, union) + ConnectionsOf(group[|group| - 1], opts, union)
  }

  // ---- walking a normal form ----

  // Besides the output: the operands directly in the OPTIONALs visited so far for one parent leaf,
  // and those of the OPTIONAL being visited.
  datatype Walk = Walk(out: Output, opts: seq<nat>, union: seq<nat>)

  // What a leaf inside an OPTIONAL adds once its own operands exist.
  function LinkOptional(w: Walk, parent: seq<nat>, group: seq<nat>): Walk {
    var odg := w.out.odg;
    var odg' := odg.(dependencies := odg.dependencies + EdgesBetween(odg.operands, parent, group, false),
                     connections := odg.connections + ConnectionsBetween(group, w.opts, w.union));
    Walk(w.out.(odg := odg'), w.opts + group, w.union + group)
  }

  function WalkLeaves(leaves: seq<Leaf>, parent: Option<seq<nat>>, w: Walk): Walk
    decreases leaves, 0
  {
    if leaves == [] then w
    else WalkLeaf(leaves[|leaves| - 1], parent, WalkLeaves(leaves[..|leaves| - 1], parent, w))
  }

  // The operands of the leaf's own triple patterns, and the walk just after they are in place.
  function EnterLeaf(bgp: seq<TriplePattern>, parent: Option<seq<nat>>, w: Walk): (Walk, seq<nat>) {
    var s := EmitPatterns(Scope(w.out, []), bgp);
    var entered := w.(out := s.out);
    (if parent.Some? then LinkOptional(entered, parent.value, s.group) else entered, s.group)
  }

  function WalkLeaf(leaf: Leaf, parent: Option<seq<nat>>, w: Walk): Walk
    decreases leaf, 1
  {
    var (entered, group) := EnterLeaf(leaf.bgp, parent, w);
    var inner := WalkOptionals(leaf.optionals, group, Walk(entered.out, [], []));
    entered.(out := inner.out)
  }

  function WalkOptionals(nfs: seq<NormalForm>, group: seq<nat>, w: Walk): Walk
    decreases nfs, 0
  {
    if nfs == [] then w
    else
      var before := WalkOptionals(nfs[..|nfs| - 1], group, w);
      WalkLeaves(nfs[|nfs| - 1].leaves, Some(group), before).(union := [])
  }

  lemma {:induction false} WalkLeavesConcat(a: seq<Leaf>, b: seq<Leaf>, parent: Option<seq<nat>>, w: Walk)
    ensures WalkLeaves(a + b, parent, w) == WalkLeaves(b, parent, WalkLeaves(a, parent, w))
  {
    if b == [] {
      assert a + b == a;
    } else {
      assert (a + b)[..|a + b| - 1] == a + b[..|b| - 1];
      WalkLeavesConcat(a, b[..|b| - 1], parent, w);
    }
  }

  // What the visitor emits for the WHERE clause of a query.
  function Emit(nf: NormalForm): Output {
    WalkLeaves(nf.leaves, None, Walk(EMPTY_OUTPUT, [], [])).out
  }

}
