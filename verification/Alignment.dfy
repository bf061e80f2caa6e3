/**
 Compiler and evaluator agree operand by operand: triple pattern i, graph operand i and slice key i
 describe the same pattern, and every variable has an id. Ids are unique as long as the 8-bit
 counter has not come full circle.
 */
module Alignment {
  import opened Wrappers
  import opened Sequences
  import opened Rdf
  import opened Patterns
  import opened Emission
  import opened Visitor

  // ---- slice keys ----

  // One part per position of the pattern: a fixed term, or none where the operand stays open.
  type SliceKey = seq<Option<Term>>

  function KeyPart(n: Node): Option<Term> {
    match n
    case Var(_) => None
    case Fixed(t) => Some(t)
  }

  function SliceKeyOf(tp: TriplePattern): SliceKey {
    [KeyPart(tp.s), KeyPart(tp.p), KeyPart(tp.o)]
  }

  function OpenPositions(key: SliceKey): seq<nat> {
    if key == [] then []
    else
      var init, last := OpenPositions(key[..|key| - 1]), key[|key| - 1];
      if last.None? then init + [|key| - 1] else init
  }

  method GetSliceKeys(query: SparqlQuery) returns (keys: seq<SliceKey>)
    ensures |keys| == |query.triplePatterns|
    ensures forall i :: 0 <= i < |keys| ==> keys[i] == SliceKeyOf(query.triplePatterns[i])
  {
    keys := [];
    var tps := query.triplePatterns;
    for i := 0 to |tps|
      invariant |keys| == i
      invariant forall k :: 0 <= k < i ==> keys[k] == SliceKeyOf(tps[k])
    {
      var key: SliceKey := [];
      var nodes := Nodes(tps[i]);
      for j := 0 to |nodes|
        invariant key == SliceKeyOf(tps[i])[..j]
      {
        if nodes[j].Var? {
          key := key + [None];
        } else {
          key := key + [Some(nodes[j].term)];
        }
      }
      keys := keys + [key];
    }
  }

  // ---- patterns in the order they are emitted ----

  function LeavesPatterns(leaves: seq<Leaf>): seq<TriplePattern>
    decreases leaves, 0
  {
    if leaves == [] then [] else LeavesPatterns(leaves[..|leaves| - 1]) + LeafPatterns(leaves[|leaves| - 1])
  }

  function LeafPatterns(leaf: Leaf): seq<TriplePattern>
    decreases leaf, 1
  {
    leaf.bgp + OptionalsPatterns(leaf.optionals)
  }

  function OptionalsPatterns(nfs: seq<NormalForm>): seq<TriplePattern>
    decreases nfs, 0
  {
    if nfs == [] then [] else OptionalsPatterns(nfs[..|nfs| - 1]) + LeavesPatterns(nfs[|nfs| - 1].leaves)
  }

  // ---- the invariant of everything emitted ----

  // `order` lists the registered variables; each has the id of its position.
  ghost predicate Numbered(out: Output, order: seq<Variable>) {
    && NoDuplicates(order)
    && (forall v :: v in out.varIds <==> v in order)
    && (forall k :: 0 <= k < |order| ==> order[k] in out.varIds && out.varIds[order[k]] == VarIdAt(k))
    && out.nextId == VarIdAt(|order|)
  }

  // The id of the k-th variable: counting from 'a' with wrap-around in a signed 8-bit character.
  function VarIdAt(k: nat): int {
    (FIRST_VAR_ID + k + 128) % 256 - 128
  }

  ghost predicate Aligned(out: Output) {
    && |out.patterns| == |out.odg.operands|
    && forall i :: 0 <= i < |out.patterns| ==>
      PatternVars(out.patterns[i]) <= out.varIds.Keys && out.odg.operands[i] == PatternIds(out.varIds, out.patterns[i])
  }

  ghost predicate Emitted(out: Output, tps: seq<TriplePattern>, order: seq<Variable>) {
    && out.patterns == tps && Aligned(out) && Numbered(out, order) && InOrder(order, AllNodes(tps))
    && forall v :: v in order <==> v in PatternsVars(tps)
  }

  // By first occurrence: the variables of any first positions are exactly those the list begins with.
  ghost predicate InOrder(order: seq<Variable>, nodes: seq<Node>) {
    && (forall v :: v in order <==> Var(v) in nodes)
    && forall n :: 0 <= n <= |nodes| ==> ListsFirst(order, nodes, n)
  }

  ghost predicate ListsFirst(order: seq<Variable>, nodes: seq<Node>, n: nat)
    requires n <= |nodes|
  {
    exists k :: BeginsWith(order, k, nodes[..n])
  }

  ghost predicate BeginsWith(order: seq<Variable>, k: int, nodes: seq<Node>) {
    0 <= k <= |order| && forall v :: v in order[..k] <==> Var(v) in nodes
  }

  lemma RegisterInOrder(order: seq<Variable>, nodes: seq<Node>, node: Node, order': seq<Variable>)
    requires InOrder(order, nodes)
    requires order' == if node.Var? && node.variable !in order then order + [node.variable] else order
    ensures InOrder(order', nodes + [node])
  {
    var all := nodes + [node];
    forall n | 0 <= n <= |all| ensures ListsFirst(order', all, n) {
      if n <= |nodes| {
        assert ListsFirst(order, nodes, n);
        var k :| BeginsWith(order, k, nodes[..n]);
        assert order'[..k] == order[..k] && all[..n] == nodes[..n];
        assert BeginsWith(order', k, all[..n]);
      } else {
        assert order'[..|order'|] == order' && all[..n] == all;
        assert BeginsWith(order', |order'|, all[..n]);
      }
    }
  }

  lemma NothingInOrder()
    ensures InOrder([], [])
  {
    var nodes: seq<Node> := [];
    assert nodes[..0] == nodes && BeginsWith([], 0, nodes[..0]);
    assert ListsFirst([], nodes, 0);
  }

  lemma InOrderVars(order: seq<Variable>, nodes: seq<Node>, tp: TriplePattern, order': seq<Variable>)
    requires InOrder(order, nodes) && InOrder(order', nodes + Nodes(tp))
    ensures forall v :: v in order' <==> v in order || v in PatternVars(tp)
  {
    forall v ensures Var(v) in Nodes(tp) <==> v in PatternVars(tp) {
      assert Nodes(tp)[0] == tp.s && Nodes(tp)[1] == tp.p && Nodes(tp)[2] == tp.o;
    }
  }

  lemma RegisterNumbered(out: Output, order: seq<Variable>, v: Variable) returns (order': seq<Variable>)
    requires Numbered(out, order)
    ensures Numbered(Register(out, v), order')
    ensures order' == if v in order then order else order + [v]
  {
    if v in order {
      order' := order;
    } else {
      order' := order + [v];
      NoDuplicatesConcat(order, [v]);
      hide NoDuplicates;
    }
  }

  lemma RegisterNodeNumbered(out: Output, order: seq<Variable>, nodes: seq<Node>, n: Node) returns (order': seq<Variable>)
    requires Numbered(out, order) && InOrder(order, nodes)
    ensures Numbered(RegisterNode(out, n), order') && InOrder(order', nodes + [n])
  {
    hide Numbered, InOrder, Register;
    if n.Var? {
      order' := RegisterNumbered(out, order, n.variable);
    } else {
      order' := order;
    }
    RegisterInOrder(order, nodes, n, order');
  }

  lemma RegisterPatternNumbered(out: Output, order: seq<Variable>, nodes: seq<Node>, tp: TriplePattern)
    returns (order': seq<Variable>)
    requires Numbered(out, order) && InOrder(order, nodes)
    ensures Numbered(RegisterPattern(out, tp), order') && InOrder(order', nodes + Nodes(tp))
    ensures forall v :: v in order' <==> v in order || v in PatternVars(tp)
  {
    hide Numbered, InOrder, RegisterNode, PatternVars;
    order' := RegisterNodeNumbered(out, order, nodes, tp.s);
    order' := RegisterNodeNumbered(RegisterNode(out, tp.s), order', nodes + [tp.s], tp.p);
    order' := RegisterNodeNumbered(RegisterNode(RegisterNode(out, tp.s), tp.p), order', nodes + [tp.s] + [tp.p], tp.o);
    assert nodes + [tp.s] + [tp.p] + [tp.o] == nodes + Nodes(tp);
    InOrderVars(order, nodes, tp, order');
  }

  // Registering never changes an id.
  lemma RegisterKeepsIds(out: Output, tp: TriplePattern)
    ensures out.varIds.Keys <= RegisterPattern(out, tp).varIds.Keys
    ensures forall v :: v in out.varIds ==> RegisterPattern(out, tp).varIds[v] == out.varIds[v]
  {
  }

  lemma {:induction false} IdsDependOnVars(a: map<Variable, int>, b: map<Variable, int>, nodes: seq<Node>)
    requires forall n :: n in nodes ==> NodeVars(n) <= a.Keys
    requires a.Keys <= b.Keys && forall v :: v in a ==> b[v] == a[v]
    ensures forall n :: n in nodes ==> NodeVars(n) <= b.Keys
    ensures NodesIds(a, nodes) == NodesIds(b, nodes)
  {
    if nodes != [] {
      IdsDependOnVars(a, b, nodes[..|nodes| - 1]);
      if nodes[|nodes| - 1].Var? {
        assert nodes[|nodes| - 1].variable in NodeVars(nodes[|nodes| - 1]);
      }
    }
  }

  lemma RegisterKeepsAligned(out: Output, tp: TriplePattern)
    requires Aligned(out)
    ensures Aligned(RegisterPattern(out, tp))
  {
    var out' := RegisterPattern(out, tp);
    RegisterKeepsIds(out, tp);
    forall i | 0 <= i < |out.patterns|
      ensures PatternVars(out.patterns[i]) <= out'.varIds.Keys
      ensures PatternIds(out'.varIds, out.patterns[i]) == PatternIds(out.varIds, out.patterns[i])
    {
      IdsDependOnVars(out.varIds, out'.varIds, Nodes(out.patterns[i]));
    }
  }

  lemma EmitPatternAligned(s: Scope, tp: TriplePattern, tps: seq<TriplePattern>, order: seq<Variable>) returns (order': seq<Variable>)
    requires Emitted(s.out, tps, order)
    ensures Emitted(EmitPattern(s, tp).out, tps + [tp], order')
  {
    hide RegisterPattern, AddPattern, Aligned, Numbered, InOrder, PatternVars;
    order' := RegisterPatternNumbered(s.out, order, AllNodes(tps), tp);
    assert (tps + [tp])[..|tps|] == tps;
    RegisterKeepsAligned(s.out, tp);
    RegisterPatternCovers(s.out, tp);
    RegisterKeepsPatterns(s.out, tp);
    AddPatternAligned(s.(out := RegisterPattern(s.out, tp)), tp);
    SameNumbering(RegisterPattern(s.out, tp), EmitPattern(s, tp).out, order');
    PatternsVarsConcat(tps, [tp]);
    assert PatternsVars([tp]) == PatternVars(tp) + PatternsVars([]);
  }

  lemma SameNumbering(a: Output, b: Output, order: seq<Variable>)
    requires Numbered(a, order) && a.varIds == b.varIds && a.nextId == b.nextId
    ensures Numbered(b, order)
  {
  }

  lemma RegisterKeepsPatterns(out: Output, tp: TriplePattern)
    ensures RegisterPattern(out, tp).patterns == out.patterns
  {
  }

  lemma AddPatternAligned(s: Scope, tp: TriplePattern)
    requires Aligned(s.out) && PatternVars(tp) <= s.out.varIds.Keys
    ensures Aligned(AddPattern(s, tp).out)
    ensures AddPattern(s, tp).out.patterns == s.out.patterns + [tp]
    ensures AddPattern(s, tp).out.varIds == s.out.varIds && AddPattern(s, tp).out.nextId == s.out.nextId
  {
  }

  lemma {:induction false} EmitPatternsAligned(s: Scope, new_: seq<TriplePattern>, tps: seq<TriplePattern>,
                                               order: seq<Variable>) returns (order': seq<Variable>)
    requires Emitted(s.out, tps, order)
    ensures Emitted(EmitPatterns(s, new_).out, tps + new_, order')
  {
    hide EmitPattern, Emitted;
    if new_ == [] {
      order' := order;
      assert tps + [] == tps;
    } else {
      var init, last := new_[..|new_| - 1], new_[|new_| - 1];
      order' := EmitPatternsAligned(s, init, tps, order);
      order' := EmitPatternAligned(EmitPatterns(s, init), last, tps + init, order');
      assert tps + new_ == tps + init + [last];
    }
  }

  lemma {:induction false} EnterLeafAligned(bgp: seq<TriplePattern>, parent: Option<seq<nat>>, w: Walk,
                                            tps: seq<TriplePattern>, order: seq<Variable>)
    returns (order': seq<Variable>)
    requires Emitted(w.out, tps, order)
    ensures Emitted(EnterLeaf(bgp, parent, w).0.out, tps + bgp, order')
  {
    order' := EmitPatternsAligned(Scope(w.out, []), bgp, tps, order);
  }

  lemma {:induction false} WalkLeavesAligned(leaves: seq<Leaf>, parent: Option<seq<nat>>, w: Walk,
                                             tps: seq<TriplePattern>, order: seq<Variable>)
    returns (order': seq<Variable>)
    requires Emitted(w.out, tps, order)
    ensures Emitted(WalkLeaves(leaves, parent, w).out, tps + LeavesPatterns(leaves), order')
    decreases leaves, 0
  {
    hide EnterLeaf, Emitted, WalkLeaf, LeafPatterns;
    if leaves == [] {
      order' := order;
      assert tps + [] == tps;
    } else {
      var init, leaf := leaves[..|leaves| - 1], leaves[|leaves| - 1];
      var before, done := WalkLeaves(init, parent, w), tps + LeavesPatterns(init);
      order' := WalkLeavesAligned(init, parent, w, tps, order);
      order' := WalkLeafAligned(leaf, parent, before, done, order');
      assert done + LeafPatterns(leaf) == tps + LeavesPatterns(leaves);
    }
  }

  lemma {:induction false} WalkLeafAligned(leaf: Leaf, parent: Option<seq<nat>>, w: Walk, tps: seq<TriplePattern>, order: seq<Variable>)
    returns (order': seq<Variable>)
    requires Emitted(w.out, tps, order)
    ensures Emitted(WalkLeaf(leaf, parent, w).out, tps + LeafPatterns(leaf), order')
    decreases leaf, 1
  {
    hide EnterLeaf;
    var (entered, group) := EnterLeaf(leaf.bgp, parent, w);
    order' := EnterLeafAligned(leaf.bgp, parent, w, tps, order);
    order' := WalkOptionalsAligned(leaf.optionals, group, Walk(entered.out, [], []), tps + leaf.bgp, order');
    assert tps + LeafPatterns(leaf) == tps + leaf.bgp + OptionalsPatterns(leaf.optionals);
  }

  lemma {:induction false} WalkOptionalsAligned(nfs: seq<NormalForm>, group: seq<nat>, w: Walk,
                                                tps: seq<TriplePattern>, order: seq<Variable>)
    returns (order': seq<Variable>)
    requires Emitted(w.out, tps, order)
    ensures Emitted(WalkOptionals(nfs, group, w).out, tps + OptionalsPatterns(nfs), order')
    decreases nfs, 0
  {
    hide EnterLeaf, Emitted, WalkLeaves, LeavesPatterns;
    if nfs == [] {
      order' := order;
      assert tps + [] == tps;
    } else {
      var init, leaves := nfs[..|nfs| - 1], nfs[|nfs| - 1].leaves;
      order' := WalkOptionalsAligned(init, group, w, tps, order);
      order' := WalkLeavesAligned(leaves, Some(group), WalkOptionals(init, group, w), tps + OptionalsPatterns(init), order');
      assert tps + OptionalsPatterns(nfs) == tps + OptionalsPatterns(init) + LeavesPatterns(leaves);
    }
  }

  /** Everything the visitor emits for a WHERE clause is aligned, with the variables numbered. */
  lemma EmitAligned(nf: NormalForm) returns (order: seq<Variable>)
    ensures Emitted(Emit(nf), LeavesPatterns(nf.leaves), order)
  {
    NothingInOrder();
    assert Emitted(EMPTY_OUTPUT, [], []);
    hide Emitted;
    order := WalkLeavesAligned(nf.leaves, None, Walk(EMPTY_OUTPUT, [], []), [], []);
    assert [] + LeavesPatterns(nf.leaves) == LeavesPatterns(nf.leaves);
  }

  /**
   Variables get their ids by first occurrence in the patterns, subject before predicate before object:
   those of the first `n` positions have the first `k` ids.
   */
  lemma VariablesInOrder(nf: NormalForm, n: nat) returns (order: seq<Variable>, k: nat)
    requires n <= |AllNodes(Emit(nf).patterns)|
    ensures NoDuplicates(order) && k <= |order|
    ensures forall i :: 0 <= i < |order| ==> order[i] in Emit(nf).varIds && Emit(nf).varIds[order[i]] == VarIdAt(i)
    ensures forall v :: v in order[..k] <==> Var(v) in AllNodes(Emit(nf).patterns)[..n]
  {
    order := EmitAligned(nf);
    hide NoDuplicates, Emit, AllNodes, Aligned;
    assert ListsFirst(order, AllNodes(Emit(nf).patterns), n);
    k :| BeginsWith(order, k, AllNodes(Emit(nf).patterns)[..n]);
  }

  // ---- operands and slice keys ----

  lemma {:induction false} OpenNodes(varIds: map<Variable, int>, nodes: seq<Node>, key: SliceKey)
    requires forall n :: n in nodes ==> NodeVars(n) <= varIds.Keys
    requires |key| == |nodes| && forall j :: 0 <= j < |nodes| ==> key[j] == KeyPart(nodes[j])
    ensures |OpenPositions(key)| == |NodesIds(varIds, nodes)|
    ensures forall k :: 0 <= k < |OpenPositions(key)| ==>
      && OpenPositions(key)[k] < |nodes|
      && nodes[OpenPositions(key)[k]].Var?
      && nodes[OpenPositions(key)[k]].variable in varIds
      && NodesIds(varIds, nodes)[k] == varIds[nodes[OpenPositions(key)[k]].variable]
  {
    if nodes != [] {
      OpenNodes(varIds, nodes[..|nodes| - 1], key[..|key| - 1]);
      var last := nodes[|nodes| - 1];
      if last.Var? {
        assert last.variable in NodeVars(last);
      }
    }
  }

  /**
   In aligned output, the open positions of slice key i match, in order, the variable ids of
   operand i, and its other positions hold the fixed terms of triple pattern i.
   */
  lemma OperandMatchesSliceKey(out: Output, i: nat)
    requires Aligned(out) && i < |out.patterns|
    ensures
      var nodes, key, ids := Nodes(out.patterns[i]), SliceKeyOf(out.patterns[i]), out.odg.operands[i];
      && |OpenPositions(key)| == |ids|
      && (forall k :: 0 <= k < |ids| ==>
            && OpenPositions(key)[k] < 3 && nodes[OpenPositions(key)[k]].Var?
            && nodes[OpenPositions(key)[k]].variable in out.varIds
            && ids[k] == out.varIds[nodes[OpenPositions(key)[k]].variable])
      && (forall j :: 0 <= j < 3 ==> (key[j].Some? <==> nodes[j].Fixed?) && (key[j].Some? ==> nodes[j] == Fixed(key[j].value)))
  {
    OpenNodes(out.varIds, Nodes(out.patterns[i]), SliceKeyOf(out.patterns[i]));
  }

  // ---- projected variables are registered ----

  lemma {:induction false} ItemsRegistered(out: Output, items: seq<SelectItem>)
    requires OnlyVariables(items)
    ensures forall v :: v in ItemVariables(items) ==> v in RegisterItems(out, items).varIds
  {
    if items != [] {
      ItemsRegistered(out, items[..|items| - 1]);
    }
  }

  /** Looking up the id of a projected variable never fails. */
  lemma ProjectedVariablesHaveIds(nf: NormalForm, select: SelectClause)
    requires ProjectionError(Emit(nf).patterns, select).None?
    ensures
      var emitted := Emit(nf);
      var varIds := if select.asterisk then emitted.varIds else RegisterItems(emitted, select.items).varIds;
      forall v :: v in Projection(emitted.patterns, select) ==> v in varIds
  {
    var order := EmitAligned(nf);
    if select.asterisk {
      NamedVariablesExact(Emit(nf).patterns);
    } else {
      ItemsRegistered(Emit(nf), select.items);
    }
  }

  // ---- uniqueness of variable ids ----

  ghost predicate UniqueIds(varIds: map<Variable, int>) {
    forall u, v :: u in varIds && v in varIds && u != v ==> varIds[u] != varIds[v]
  }

  lemma VarIdsRepeat(j: nat, k: nat)
    ensures j < k < j + 256 ==> VarIdAt(j) != VarIdAt(k)
    ensures VarIdAt(j + 256) == VarIdAt(j)
    ensures -128 <= VarIdAt(k) <= 127
  {
  }

  /** The first variable gets the id 'a', and each further one the next signed 8-bit number. */
  lemma VarIdsCount(k: nat)
    ensures VarIdAt(0) == 'a' as int
    ensures VarIdAt(k + 1) == if VarIdAt(k) == 127 then -128 else VarIdAt(k) + 1
  {
  }

  /** Ids are unique exactly up to 256 variables; the 257th gets the id of the first. */
  lemma IdsUniqueUpTo256(out: Output, order: seq<Variable>)
    requires Numbered(out, order)
    ensures UniqueIds(out.varIds) <==> |order| <= 256
    ensures |order| > 256 ==> out.varIds[order[256]] == out.varIds[order[0]]
  {
    if |order| <= 256 {
      forall u, v | u in out.varIds && v in out.varIds && u != v ensures out.varIds[u] != out.varIds[v] {
        var j :| 0 <= j < |order| && order[j] == u;
        var k :| 0 <= k < |order| && order[k] == v;
        VarIdsRepeat(j, k);
        VarIdsRepeat(k, j);
      }
    } else {
      VarIdsRepeat(0, 0);
      assert order[0] in out.varIds && order[256] in out.varIds && order[0] != order[256];
    }
  }

  /** For a WHERE clause: ids identify variables exactly when it has at most 256 of them. */
  lemma EmittedIdsUnique(nf: NormalForm)
    ensures UniqueIds(Emit(nf).varIds) <==> |PatternsVars(LeavesPatterns(nf.leaves))| <= 256
  {
    var order := EmitAligned(nf);
    DistinctSize(order, PatternsVars(LeavesPatterns(nf.leaves)));
    IdsUniqueUpTo256(Emit(nf), order);
  }

  // The selected variables as positions.
  function ItemNodes(items: seq<SelectItem>): (nodes: seq<Node>)
    requires OnlyVariables(items)
    ensures |nodes| == |items| && forall i :: 0 <= i < |items| ==> nodes[i].Var? && items[i] == SelectVariable(nodes[i].variable)
  {
    if items == [] then []
    else
      assert OnlyVariables(items[..|items| - 1]) && items[|items| - 1] in items;
      ItemNodes(items[..|items| - 1]) + [Var(items[|items| - 1].variable)]
  }

  /** The selected variables are numbered behind those of the WHERE clause, again by first occurrence. */
  lemma {:induction false} RegisterItemsNumbered(out: Output, order: seq<Variable>, nodes: seq<Node>, items: seq<SelectItem>)
    returns (order': seq<Variable>)
    requires Numbered(out, order) && InOrder(order, nodes) && OnlyVariables(items)
    ensures Numbered(RegisterItems(out, items), order') && InOrder(order', nodes + ItemNodes(items))
    ensures forall v :: v in order' <==> v in order || v in ItemVariables(items)
  {
    hide Numbered, InOrder, Register;
    if items == [] {
      order' := order;
      assert nodes + [] == nodes;
    } else {
      var init, last := items[..|items| - 1], items[|items| - 1];
      assert OnlyVariables(init) && last in items;
      var before := RegisterItemsNumbered(out, order, nodes, init);
      order' := RegisterNumbered(RegisterItems(out, init), before, last.variable);
      RegisterInOrder(before, nodes + ItemNodes(init), Var(last.variable), order');
      assert nodes + ItemNodes(init) + [Var(last.variable)] == nodes + ItemNodes(items);
    }
  }

  // The variables that have ids once a query is parsed.
  ghost function QueryVariables(nf: NormalForm, select: SelectClause): set<Variable>
    requires select.asterisk || OnlyVariables(select.items)
  {
    PatternsVars(LeavesPatterns(nf.leaves)) + if select.asterisk then {} else set v | v in ItemVariables(select.items)
  }

  /**
   For a whole SELECT query, with the ids that `ParseSelect` returns: they identify variables exactly
   when the WHERE clause and the SELECT clause together mention at most 256 of them.
   */
  lemma QueryIdsUnique(nf: NormalForm, select: SelectClause)
    requires ProjectionError(Emit(nf).patterns, select).None?
    ensures
      var emitted := Emit(nf);
      var varIds := if select.asterisk then emitted.varIds else RegisterItems(emitted, select.items).varIds;
      UniqueIds(varIds) <==> |QueryVariables(nf, select)| <= 256
  {
    var out := Emit(nf);
    var order := EmitAligned(nf);
    if !select.asterisk {
      order := RegisterItemsNumbered(out, order, AllNodes(out.patterns), select.items);
      out := RegisterItems(out, select.items);
    }
    DistinctSize(order, QueryVariables(nf, select));
    IdsUniqueUpTo256(out, order);
  }

}
