/**
 The exact shape of the operand dependency graph: every edge and connection it holds, with its
 multiplicity, follows from where the two operands sit in the normal form.
 */
module OdgShape {
  import opened Wrappers
  import opened Sequences
  import opened Rdf
  import opened Patterns
  import opened Emission

  // ---- where an operand sits ----

  // A leaf is reached by a choice of optional and of union branch per level; at the top, where
  // there is no optional, the first component is 0.
  datatype Step = Step(optional: nat, branch: nat)

  type Place = seq<Step>

  function Repeat(p: Place, n: nat): seq<Place> {
    seq(n, i => p)
  }

  // The place of every operand of some leaves, in the order the operands are emitted.
  function LeavesPlaces(leaves: seq<Leaf>, base: Place, opt: nat): seq<Place>
    decreases leaves, 0
  {
    if leaves == [] then []
    else LeavesPlaces(leaves[..|leaves| - 1], base, opt) + LeafPlaces(leaves[|leaves| - 1], base + [Step(opt, |leaves| - 1)])
  }

  function LeafPlaces(leaf: Leaf, place: Place): seq<Place>
    decreases leaf, 1
  {
    Repeat(place, |leaf.bgp|) + OptionalsPlaces(leaf.optionals, place)
  }

  function OptionalsPlaces(nfs: seq<NormalForm>, place: Place): seq<Place>
    decreases nfs, 0
  {
    if nfs == [] then []
    else OptionalsPlaces(nfs[..|nfs| - 1], place) + LeavesPlaces(nfs[|nfs| - 1].leaves, place, |nfs| - 1)
  }

  function Places(nf: NormalForm): seq<Place> {
    LeavesPlaces(nf.leaves, [], 0)
  }

  // `q` sits directly in an OPTIONAL of the leaf at `p`.
  predicate ChildOf(p: Place, q: Place) {
    |q| == |p| + 1 && q[..|p|] == p
  }

  // Directly in different OPTIONALs of one parent leaf.
  predicate InSiblingOptionals(p: Place, q: Place) {
    && |p| == |q| > 0
    && p[..|p| - 1] == q[..|q| - 1]
    && p[|p| - 1].optional != q[|q| - 1].optional
  }

  // ---- what the graph should hold ----

  predicate Disjoint(a: seq<int>, b: seq<int>) {
    forall x :: x in a ==> x !in b
  }

  // Within a leaf: one edge per shared variable, an unlabelled one if none is shared.
  ghost function WithinLeaf(a: seq<int>, b: seq<int>, varLabel: Option<int>): nat {
    match varLabel
    case None => if Disjoint(a, b) then 1 else 0
    case Some(id) => if id in a && id in b then 1 else 0
  }

  // From a parent to a child leaf: one edge per occurrence in the parent of a shared variable.
  ghost function ToChild(a: seq<int>, b: seq<int>, varLabel: Option<int>): nat {
    match varLabel
    case None => if Disjoint(a, b) then 1 else 0
    case Some(id) => if id in b then multiset(a)[id] else 0
  }

  ghost function ExpectedDependencies(places: seq<Place>, operands: seq<seq<int>>, e: Edge): nat
    requires |places| == |operands|
  {
    if e.source >= |places| || e.target >= |places| || e.source == e.target then 0
    else if places[e.source] == places[e.target] then WithinLeaf(operands[e.source], operands[e.target], e.varLabel)
    else if ChildOf(places[e.source], places[e.target]) then ToChild(operands[e.source], operands[e.target], e.varLabel)
    else 0
  }

  ghost function ExpectedConnections(places: seq<Place>, c: Connection): nat {
    if c.source < |places| && c.target < |places| && InSiblingOptionals(places[c.source], places[c.target]) then 1 else 0
  }

  ghost function DependencyCount(odg: Odg, e: Edge): nat { multiset(odg.dependencies)[e] }

  ghost function ConnectionCount(odg: Odg, c: Connection): nat { multiset(odg.connections)[c] }

  ghost predicate HasShape(odg: Odg, places: seq<Place>) {
    && |places| == |odg.operands|
    && (forall e :: DependencyCount(odg, e) == ExpectedDependencies(places, odg.operands, e))
    && (forall c :: ConnectionCount(odg, c) == ExpectedConnections(places, c))
  }

  // ---- edges within a leaf ----

  lemma {:induction false} SharedIdsCount(ids: seq<int>, others: seq<int>, id: int)
    ensures multiset(SharedIds(ids, others))[id] == if id in ids && id in others then 1 else 0
    ensures id in SharedIds(ids, others) <==> id in ids && id in others
  {
    if ids != [] {
      var last := ids[|ids| - 1];
      SharedIdsCount(ids[..|ids| - 1], others, id);
      SharedIdsCount(ids[..|ids| - 1], others, last);
      assert ids == ids[..|ids| - 1] + [last];
    }
  }

  lemma BothWaysCount(a: nat, b: nat, varLabel: Option<int>, e: Edge)
    requires a != b
    ensures multiset(BothWays(a, b, varLabel))[e] == if e == Edge(a, b, varLabel) || e == Edge(b, a, varLabel) then 1 else 0
  {
  }

  lemma {:induction false} LabelledCount(a: nat, b: nat, labels: seq<int>, e: Edge)
    requires a != b
    ensures multiset(LabelledBothWays(a, b, labels))[e] ==
      if e.varLabel.Some? && ((e.source == a && e.target == b) || (e.source == b && e.target == a))
      then multiset(labels)[e.varLabel.value] else 0
  {
    if labels != [] {
      var init, last := labels[..|labels| - 1], labels[|labels| - 1];
      LabelledCount(a, b, init, e);
      assert labels == init + [last];
      BothWaysCount(a, b, Some(last), e);
      assert multiset(labels) == multiset(init) + multiset{last};
    }
  }

  lemma SharedIdsEmpty(ids: seq<int>, others: seq<int>)
    ensures SharedIds(ids, others) == [] <==> Disjoint(others, ids)
  {
    forall id ensures id in SharedIds(ids, others) <==> id in ids && id in others {
      SharedIdsCount(ids, others, id);
    }
    if SharedIds(ids, others) != [] {
      assert SharedIds(ids, others)[0] in SharedIds(ids, others);
    }
  }

  lemma PairCount(a: nat, aIds: seq<int>, b: nat, bIds: seq<int>, e: Edge)
    requires a != b
    ensures multiset(PairEdges(a, aIds, b, bIds))[e] ==
      if (e.source == a && e.target == b) || (e.source == b && e.target == a) then WithinLeaf(aIds, bIds, e.varLabel) else 0
  {
    SharedIdsEmpty(bIds, aIds);
    LabelledCount(a, b, SharedIds(bIds, aIds), e);
    if e.varLabel.Some? {
      SharedIdsCount(bIds, aIds, e.varLabel.value);
    }
    BothWaysCount(a, b, None, e);
  }

  // What the edges of a new operand `id` with its group contribute to edge `e`.
  ghost function GroupContribution(operands: seq<seq<int>>, group: seq<nat>, id: nat, ids: seq<int>, e: Edge): nat {
    if e.source in group && e.target == id then WithinLeaf(OperandVarIds(operands, e.source), ids, e.varLabel)
    else if e.source == id && e.target in group then WithinLeaf(OperandVarIds(operands, e.target), ids, e.varLabel)
    else 0
  }

  lemma {:induction false} GroupCount(operands: seq<seq<int>>, group: seq<nat>, id: nat, ids: seq<int>, e: Edge)
    requires NoDuplicates(group) && id !in group
    ensures multiset(GroupEdges(operands, group, id, ids))[e] == GroupContribution(operands, group, id, ids, e)
  {
    if group != [] {
      assert group == [group[0]] + group[1..];
      assert group[0] !in group[1..];
      GroupCount(operands, group[1..], id, ids, e);
      PairCount(group[0], OperandVarIds(operands, group[0]), id, ids, e);
    }
  }

  function Range(from: nat, n: nat): (r: seq<nat>)
    ensures |r| == n
  {
    if n == 0 then [] else Range(from, n - 1) + [from + n - 1]
  }

  lemma {:induction false} RangeFacts(from: nat, n: nat)
    ensures NoDuplicates(Range(from, n))
    ensures forall x: nat :: x in Range(from, n) <==> from <= x < from + n
  {
    if n > 0 {
      RangeFacts(from, n - 1);
      NoDuplicatesConcat(Range(from, n - 1), [from + n - 1]);
    }
  }

  lemma WithinLeafSymmetric(a: seq<int>, b: seq<int>, varLabel: Option<int>)
    ensures WithinLeaf(a, b, varLabel) == WithinLeaf(b, a, varLabel)
  {
  }

  // Edges among the operands numbered from `from` on.
  ghost function AmongNew(operands: seq<seq<int>>, from: nat, e: Edge): nat {
    if from <= e.source < |operands| && from <= e.target < |operands| && e.source != e.target
    then WithinLeaf(operands[e.source], operands[e.target], e.varLabel) else 0
  }

  lemma RegisterKeepsGraph(out: Output, tp: TriplePattern)
    ensures RegisterPattern(out, tp).odg == out.odg && RegisterPattern(out, tp).patterns == out.patterns
  {
  }

  // What emitting one pattern does to the graph.
  lemma EmittedGraph(s: Scope, tp: TriplePattern) returns (ids: seq<int>)
    ensures
      var odg, odg' := s.out.odg, EmitPattern(s, tp).out.odg;
      && odg'.operands == odg.operands + [ids]
      && odg'.dependencies == odg.dependencies + GroupEdges(odg'.operands, s.group, OperandId(|odg.operands|), ids)
      && odg'.connections == odg.connections
      && EmitPattern(s, tp).group == s.group + [OperandId(|odg.operands|)]
  {
    RegisterPatternCovers(s.out, tp);
    RegisterKeepsGraph(s.out, tp);
    ids := PatternIds(RegisterPattern(s.out, tp).varIds, tp);
  }

  /** However many patterns there are, each operand has the 8-bit number of its position among all operands. */
  lemma {:induction false} OperandsAreNumbered(s: Scope, tps: seq<TriplePattern>)
    requires s.group == []
    ensures |EmitPatterns(s, tps).out.odg.operands| == |s.out.odg.operands| + |tps|
    ensures |EmitPatterns(s, tps).group| == |tps|
    ensures forall k :: 0 <= k < |tps| ==> EmitPatterns(s, tps).group[k] == (|s.out.odg.operands| + k) % 256
  {
    hide EmitPattern;
    if tps != [] {
      OperandsAreNumbered(s, tps[..|tps| - 1]);
      var ids := EmittedGraph(EmitPatterns(s, tps[..|tps| - 1]), tps[|tps| - 1]);
    }
  }

  // The operands of a leaf are numbered consecutively.
  lemma {:induction false} PatternsGraph(s: Scope, tps: seq<TriplePattern>)
    requires s.group == [] && |s.out.odg.operands| + |tps| <= 256
    ensures |EmitPatterns(s, tps).out.odg.operands| == |s.out.odg.operands| + |tps|
    ensures s.out.odg.operands <= EmitPatterns(s, tps).out.odg.operands
    ensures EmitPatterns(s, tps).group == Range(|s.out.odg.operands|, |tps|)
    ensures EmitPatterns(s, tps).out.odg.connections == s.out.odg.connections
  {
    hide EmitPattern;
    if tps != [] {
      PatternsGraph(s, tps[..|tps| - 1]);
      var ids := EmittedGraph(EmitPatterns(s, tps[..|tps| - 1]), tps[|tps| - 1]);
    }
  }

  lemma {:induction false} PatternsCount(s: Scope, tps: seq<TriplePattern>, e: Edge)
    requires s.group == [] && |s.out.odg.operands| + |tps| <= 256
    ensures DependencyCount(EmitPatterns(s, tps).out.odg, e)
         == DependencyCount(s.out.odg, e) + AmongNew(EmitPatterns(s, tps).out.odg.operands, |s.out.odg.operands|, e)
  {
    hide EmitPattern;
    if tps != [] {
      var init, last := tps[..|tps| - 1], tps[|tps| - 1];
      PatternsGraph(s, init);
      PatternsCount(s, init, e);
      var ids := EmittedGraph(EmitPatterns(s, init), last);
      OneMoreOperand(EmitPatterns(s, init).out.odg, EmitPattern(EmitPatterns(s, init), last).out.odg, |s.out.odg.operands|, ids, e);
    }
  }

  lemma {:induction false} OneMoreOperand(odg: Odg, odg': Odg, from: nat, ids: seq<int>, e: Edge)
    requires from <= |odg.operands| && odg'.operands == odg.operands + [ids]
    requires odg'.dependencies ==
      odg.dependencies + GroupEdges(odg'.operands, Range(from, |odg.operands| - from), |odg.operands|, ids)
    ensures DependencyCount(odg', e) - AmongNew(odg'.operands, from, e) == DependencyCount(odg, e) - AmongNew(odg.operands, from, e)
  {
    hide AmongNew, GroupEdges, GroupContribution;
    RangeFacts(from, |odg.operands| - from);
    GroupCount(odg'.operands, Range(from, |odg.operands| - from), |odg.operands|, ids, e);
    NewContribution(odg.operands, from, ids, e);
  }

  lemma NewContribution(operands: seq<seq<int>>, from: nat, ids: seq<int>, e: Edge)
    requires from <= |operands|
    ensures AmongNew(operands + [ids], from, e)
         == AmongNew(operands, from, e) + GroupContribution(operands + [ids], Range(from, |operands| - from), |operands|, ids, e)
  {
    RangeFacts(from, |operands| - from);
    WithinLeafSymmetric(ids, OperandVarIds(operands + [ids], e.target), e.varLabel);
  }

  // ---- edges from the parent leaf ----

  lemma {:induction false} LabelledEdgesCount(from: nat, fromIds: seq<int>, to: nat, toIds: seq<int>, e: Edge)
    ensures multiset(LabelledEdges(from, fromIds, to, toIds, false))[e] ==
      if e.source == from && e.target == to && e.varLabel.Some? && e.varLabel.value in toIds
      then multiset(fromIds)[e.varLabel.value] else 0
    ensures LabelledEdges(from, fromIds, to, toIds, false) == [] <==> Disjoint(fromIds, toIds)
  {
    if fromIds != [] {
      var init, last := fromIds[..|fromIds| - 1], fromIds[|fromIds| - 1];
      assert fromIds == init + [last];
      LabelledEdgesCount(from, init, to, toIds, e);
      assert multiset(Directed(from, to, Some(last), false))[e] == if e == Edge(from, to, Some(last)) then 1 else 0;
      assert Disjoint(fromIds, toIds) <==> Disjoint(init, toIds) && last !in toIds;
    }
  }

  lemma DisjointAt(a: seq<int>, b: seq<int>, id: int)
    ensures Disjoint(a, b) && id in b ==> multiset(a)[id] == 0
  {
    if Disjoint(a, b) && id in a {
      assert id !in b;
    }
  }

  lemma DependencyEdgesCount(operands: seq<seq<int>>, from: nat, to: nat, e: Edge)
    ensures multiset(DependencyEdges(operands, from, to, false))[e] ==
      if e.source == from && e.target == to
      then ToChild(OperandVarIds(operands, from), OperandVarIds(operands, to), e.varLabel) else 0
  {
    var a, b := OperandVarIds(operands, from), OperandVarIds(operands, to);
    LabelledEdgesCount(from, a, to, b, e);
    assert multiset(Directed(from, to, None, false))[e] == if e == Edge(from, to, None) then 1 else 0;
    if e.varLabel.Some? {
      DisjointAt(a, b, e.varLabel.value);
    }
  }

  lemma {:induction false} EdgesToGroupCount(operands: seq<seq<int>>, from: nat, group: seq<nat>, e: Edge)
    requires NoDuplicates(group)
    ensures multiset(EdgesToGroup(operands, from, group, false))[e] ==
      if e.source == from && e.target in group
      then ToChild(OperandVarIds(operands, from), OperandVarIds(operands, e.target), e.varLabel) else 0
  {
    if group != [] {
      var init, last := group[..|group| - 1], group[|group| - 1];
      assert group == init + [last];
      assert last !in init;
      EdgesToGroupCount(operands, from, init, e);
      DependencyEdgesCount(operands, from, last, e);
    }
  }

  lemma {:induction false} EdgesBetweenCount(operands: seq<seq<int>>, prev: seq<nat>, cur: seq<nat>, e: Edge)
    requires NoDuplicates(prev) && NoDuplicates(cur)
    ensures multiset(EdgesBetween(operands, prev, cur, false))[e] ==
      if e.source in prev && e.target in cur
      then ToChild(OperandVarIds(operands, e.source), OperandVarIds(operands, e.target), e.varLabel) else 0
  {
    if prev != [] {
      var init, last := prev[..|prev| - 1], prev[|prev| - 1];
      assert prev == init + [last];
      assert last !in init;
      EdgesBetweenCount(operands, init, cur, e);
      EdgesToGroupCount(operands, last, cur, e);
    }
  }

  // ---- connections ----

  function Reversed(e: Edge): Edge {
    Edge(e.target, e.source, e.varLabel)
  }

  lemma {:induction false} LabelledEdgesBothWays(from: nat, fromIds: seq<int>, to: nat, toIds: seq<int>, e: Edge)
    ensures multiset(LabelledEdges(from, fromIds, to, toIds, true))[e]
      == multiset(LabelledEdges(from, fromIds, to, toIds, false))[e] + multiset(LabelledEdges(from, fromIds, to, toIds, false))[Reversed(e)]
    ensures LabelledEdges(from, fromIds, to, toIds, true) == [] <==> LabelledEdges(from, fromIds, to, toIds, false) == []
  {
    if fromIds != [] {
      LabelledEdgesBothWays(from, fromIds[..|fromIds| - 1], to, toIds, e);
      DirectedBothWays(from, to, Some(fromIds[|fromIds| - 1]), e);
      hide Directed;
    }
  }

  lemma DirectedBothWays(from: nat, to: nat, varLabel: Option<int>, e: Edge)
    ensures multiset(Directed(from, to, varLabel, true))[e]
      == multiset(Directed(from, to, varLabel, false))[e] + multiset(Directed(from, to, varLabel, false))[Reversed(e)]
    ensures Directed(from, to, varLabel, true) != [] && Directed(from, to, varLabel, false) != []
  {
    var there, back := Edge(from, to, varLabel), Edge(to, from, varLabel);
    assert Directed(from, to, varLabel, true) == [there] + [back];
    assert Directed(from, to, varLabel, false) == [there];
  }

  lemma DependencyEdgesBothWays(operands: seq<seq<int>>, from: nat, to: nat, e: Edge)
    ensures multiset(DependencyEdges(operands, from, to, true))[e]
      == multiset(DependencyEdges(operands, from, to, false))[e] + multiset(DependencyEdges(operands, from, to, false))[Reversed(e)]
  {
    LabelledEdgesBothWays(from, OperandVarIds(operands, from), to, OperandVarIds(operands, to), e);
    DirectedBothWays(from, to, None, e);
  }

  lemma {:induction false} EdgesToGroupBothWays(operands: seq<seq<int>>, from: nat, group: seq<nat>, e: Edge)
    ensures multiset(EdgesToGroup(operands, from, group, true))[e]
      == multiset(EdgesToGroup(operands, from, group, false))[e] + multiset(EdgesToGroup(operands, from, group, false))[Reversed(e)]
  {
    if group != [] {
      EdgesToGroupBothWays(operands, from, group[..|group| - 1], e);
      DependencyEdgesBothWays(operands, from, group[|group| - 1], e);
      hide DependencyEdges;
    }
  }

  /** Bidirectional dependencies between groups are those of one direction and their reversals. */
  lemma {:induction false} EdgesBetweenBothWays(operands: seq<seq<int>>, prev: seq<nat>, cur: seq<nat>, e: Edge)
    ensures multiset(EdgesBetween(operands, prev, cur, true))[e]
      == multiset(EdgesBetween(operands, prev, cur, false))[e] + multiset(EdgesBetween(operands, prev, cur, false))[Reversed(e)]
  {
    if prev != [] {
      EdgesBetweenBothWays(operands, prev[..|prev| - 1], cur, e);
      EdgesToGroupBothWays(operands, prev[|prev| - 1], cur, e);
      hide EdgesToGroup;
    }
  }

  lemma {:induction false} ConnectionsOfCount(id: nat, opts: seq<nat>, union: seq<nat>, c: Connection)
    requires NoDuplicates(opts) && id !in opts
    ensures multiset(ConnectionsOf(id, opts, union))[c] ==
      if (c.source == id && c.target in opts && c.target !in union) || (c.target == id && c.source in opts && c.source !in union)
      then 1 else 0
  {
    if opts != [] {
      var init, last := opts[..|opts| - 1], opts[|opts| - 1];
      assert opts == init + [last];
      assert last !in init;
      ConnectionsOfCount(id, init, union, c);
      assert multiset([Connection(id, last), Connection(last, id)])[c]
          == if c == Connection(id, last) || c == Connection(last, id) then 1 else 0;
    }
  }

  lemma {:induction false} ConnectionsBetweenCount(group: seq<nat>, opts: seq<nat>, union: seq<nat>, c: Connection)
    requires NoDuplicates(group) && NoDuplicates(opts) && (forall id :: id in group ==> id !in opts)
    ensures multiset(ConnectionsBetween(group, opts, union))[c] ==
      if (c.source in group && c.target in opts && c.target !in union) || (c.target in group && c.source in opts && c.source !in union)
      then 1 else 0
  {
    if group != [] {
      var init, last := group[..|group| - 1], group[|group| - 1];
      assert group == init + [last];
      assert last !in init;
      ConnectionsBetweenCount(init, opts, union, c);
      ConnectionsOfCount(last, opts, union, c);
    }
  }

  // ---- the walk, one leaf at a time ----

  // `ids` lists exactly the operands at `place`.
  ghost predicate ListsPlace(ids: seq<nat>, places: seq<Place>, place: Place) {
    && NoDuplicates(ids)
    && forall id: nat :: id in ids <==> id < |places| && places[id] == place
  }

  // Below `base`, everything so far comes before branch `branch` of optional `opt`.
  ghost predicate NothingFrom(places: seq<Place>, base: Place, opt: nat, branch: nat) {
    forall i :: 0 <= i < |places| && |places[i]| > |base| && places[i][..|base|] == base ==>
      places[i][|base|].optional < opt || (places[i][|base|].optional == opt && places[i][|base|].branch < branch)
  }

  // What the walk's lists hold, with the places of the operands emitted so far.
  ghost predicate WalkInvariant(w: Walk, places: seq<Place>, base: Place, opt: nat, branch: nat, parent: Option<seq<nat>>) {
    && HasShape(w.out.odg, places)
    && NothingFrom(places, base, opt, branch)
    && match parent
       case None => base == [] && opt == 0 && forall i :: 0 <= i < |places| ==> |places[i]| > 0 && places[i][0].optional == 0
       case Some(ids) => base != [] && ListsPlace(ids, places, base) && ListsChildren(w, places, base, opt)
  }

  ghost predicate ListsChildren(w: Walk, places: seq<Place>, base: Place, opt: nat) {
    && NoDuplicates(w.opts)
    && (forall id: nat :: id in w.opts <==> id < |places| && ChildOf(base, places[id]))
    && (forall id: nat :: id in w.union <==> id < |places| && ChildOf(base, places[id]) && places[id][|base|].optional == opt)
  }

  // What entering a leaf does to the operands and to the lists.
  lemma {:induction false} EnterLeafLists(bgp: seq<TriplePattern>, parent: Option<seq<nat>>, w: Walk)
    requires |w.out.odg.operands| + |bgp| <= 256
    ensures
      var n := |w.out.odg.operands|;
      var (entered, group) := EnterLeaf(bgp, parent, w);
      && group == Range(n, |bgp|)
      && |entered.out.odg.operands| == n + |bgp| && w.out.odg.operands <= entered.out.odg.operands
      && entered.opts == (if parent.Some? then w.opts + group else w.opts)
      && entered.union == (if parent.Some? then w.union + group else w.union)
  {
    PatternsGraph(Scope(w.out, []), bgp);
  }

  // The dependencies a leaf adds: among its own operands, and from the parent.
  lemma EnterLeafDependencyCount(bgp: seq<TriplePattern>, parent: Option<seq<nat>>, w: Walk, e: Edge)
    requires |w.out.odg.operands| + |bgp| <= 256 && (parent.Some? ==> NoDuplicates(parent.value))
    ensures
      var (entered, group) := EnterLeaf(bgp, parent, w);
      var operands := entered.out.odg.operands;
      DependencyCount(entered.out.odg, e) == DependencyCount(w.out.odg, e) + AmongNew(operands, |w.out.odg.operands|, e)
        + (if parent.Some? && e.source in parent.value && e.target in group
           then ToChild(OperandVarIds(operands, e.source), OperandVarIds(operands, e.target), e.varLabel) else 0)
  {
    var s := EmitPatterns(Scope(w.out, []), bgp);
    PatternsGraph(Scope(w.out, []), bgp);
    PatternsCount(Scope(w.out, []), bgp, e);
    RangeFacts(|w.out.odg.operands|, |bgp|);
    if parent.Some? {
      EdgesBetweenCount(s.out.odg.operands, parent.value, s.group, e);
    }
  }

  // The connections a leaf adds: to the operands of earlier optionals.
  lemma EnterLeafConnectionCount(bgp: seq<TriplePattern>, parent: Option<seq<nat>>, w: Walk, c: Connection)
    requires |w.out.odg.operands| + |bgp| <= 256
    requires parent.Some? ==> NoDuplicates(w.opts) && forall id :: id in w.opts ==> id < |w.out.odg.operands|
    ensures
      var (entered, group) := EnterLeaf(bgp, parent, w);
      ConnectionCount(entered.out.odg, c) == ConnectionCount(w.out.odg, c)
        + (if parent.Some? && ((c.source in group && c.target in w.opts && c.target !in w.union)
                               || (c.target in group && c.source in w.opts && c.source !in w.union)) then 1 else 0)
  {
    var s := EmitPatterns(Scope(w.out, []), bgp);
    PatternsGraph(Scope(w.out, []), bgp);
    RangeFacts(|w.out.odg.operands|, |bgp|);
    if parent.Some? {
      ConnectionsBetweenCount(s.group, w.opts, w.union, c);
    }
  }

  /** Entering the next leaf keeps the shape. */
  lemma EnterLeafShape(bgp: seq<TriplePattern>, parent: Option<seq<nat>>, w: Walk, places: seq<Place>, base: Place, opt: nat, branch: nat)
    requires WalkInvariant(w, places, base, opt, branch, parent)
    requires |places| + |bgp| <= 256
    ensures HasShape(EnterLeaf(bgp, parent, w).0.out.odg, places + Repeat(base + [Step(opt, branch)], |bgp|))
  {
    var after := places + Repeat(base + [Step(opt, branch)], |bgp|);
    var odg' := EnterLeaf(bgp, parent, w).0.out.odg;
    EnterLeafLists(bgp, parent, w);
    forall e: Edge ensures DependencyCount(odg', e) == ExpectedDependencies(after, odg'.operands, e) {
      EnterLeafDependencies(bgp, parent, w, places, base, opt, branch, e);
    }
    forall c: Connection ensures ConnectionCount(odg', c) == ExpectedConnections(after, c) {
      EnterLeafConnections(bgp, parent, w, places, base, opt, branch, c);
    }
  }

  lemma EnterLeafDependencies(bgp: seq<TriplePattern>, parent: Option<seq<nat>>, w: Walk, places: seq<Place>,
                              base: Place, opt: nat, branch: nat, e: Edge)
    requires WalkInvariant(w, places, base, opt, branch, parent)
    requires |places| + |bgp| <= 256
    ensures
      var odg' := EnterLeaf(bgp, parent, w).0.out.odg;
      var after := places + Repeat(base + [Step(opt, branch)], |bgp|);
      |odg'.operands| == |after| && DependencyCount(odg', e) == ExpectedDependencies(after, odg'.operands, e)
  {
    RangeFacts(|places|, |bgp|);
    EnterLeafLists(bgp, parent, w);
    EnterLeafDependencyCount(bgp, parent, w, e);
    NewDependencies(w, places, base, opt, branch, parent, EnterLeaf(bgp, parent, w).0.out.odg.operands, |bgp|, e);
    assert DependencyCount(w.out.odg, e) == ExpectedDependencies(places, w.out.odg.operands, e);
  }

  lemma EnterLeafConnections(bgp: seq<TriplePattern>, parent: Option<seq<nat>>, w: Walk, places: seq<Place>,
                             base: Place, opt: nat, branch: nat, c: Connection)
    requires WalkInvariant(w, places, base, opt, branch, parent)
    requires |places| + |bgp| <= 256
    ensures ConnectionCount(EnterLeaf(bgp, parent, w).0.out.odg, c)
         == ExpectedConnections(places + Repeat(base + [Step(opt, branch)], |bgp|), c)
  {
    RangeFacts(|places|, |bgp|);
    EnterLeafLists(bgp, parent, w);
    EnterLeafConnectionCount(bgp, parent, w, c);
    NewConnections(w, places, base, opt, branch, parent, |bgp|, c);
    assert ConnectionCount(w.out.odg, c) == ExpectedConnections(places, c);
  }

  lemma NewDependencies(w: Walk, places: seq<Place>, base: Place, opt: nat, branch: nat, parent: Option<seq<nat>>,
                        operands: seq<seq<int>>, k: nat, e: Edge)
    requires WalkInvariant(w, places, base, opt, branch, parent)
    requires |operands| == |places| + k && w.out.odg.operands <= operands
    ensures ExpectedDependencies(places + Repeat(base + [Step(opt, branch)], k), operands, e)
         == ExpectedDependencies(places, w.out.odg.operands, e) + AmongNew(operands, |places|, e)
            + (if parent.Some? && e.source in parent.value && |places| <= e.target < |operands|
               then ToChild(OperandVarIds(operands, e.source), OperandVarIds(operands, e.target), e.varLabel) else 0)
  {
    var place := base + [Step(opt, branch)];
    assert place[..|base|] == base;
    if e.source < |places| <= e.target {
      assert ChildOf(places[e.source], place) <==> places[e.source] == base;
    }
  }

  lemma NewConnections(w: Walk, places: seq<Place>, base: Place, opt: nat, branch: nat, parent: Option<seq<nat>>, k: nat, c: Connection)
    requires WalkInvariant(w, places, base, opt, branch, parent)
    ensures ExpectedConnections(places + Repeat(base + [Step(opt, branch)], k), c)
         == ExpectedConnections(places, c)
            + (if parent.Some? && ((|places| <= c.source < |places| + k && c.target in w.opts && c.target !in w.union)
                                   || (|places| <= c.target < |places| + k && c.source in w.opts && c.source !in w.union)) then 1 else 0)
  {
    var place := base + [Step(opt, branch)];
    assert place[..|place| - 1] == base;
    forall i | 0 <= i < |places|
      ensures InSiblingOptionals(places[i], place) <==> InSiblingOptionals(place, places[i])
      ensures InSiblingOptionals(places[i], place) <==> parent.Some? && i in w.opts && i !in w.union
    {
      if InSiblingOptionals(places[i], place) {
        assert places[i][..|base|] == base;
      }
      if parent.Some? && ChildOf(base, places[i]) {
        assert places[i][..|places[i]| - 1] == base;
      }
    }
  }

  // ---- the whole walk ----

  // The operands below a leaf sit strictly below its place.
  lemma {:induction false} OptionalsPlacesBelow(nfs: seq<NormalForm>, place: Place)
    ensures forall q: Place :: q in OptionalsPlaces(nfs, place) ==>
      |q| > |place| && q[..|place|] == place && q[|place|].optional < |nfs|
    decreases nfs, 0
  {
    if nfs != [] {
      OptionalsPlacesBelow(nfs[..|nfs| - 1], place);
      LeavesPlacesBelow(nfs[|nfs| - 1].leaves, place, |nfs| - 1);
    }
  }

  lemma {:induction false} LeavesPlacesBelow(leaves: seq<Leaf>, base: Place, opt: nat)
    ensures forall q: Place :: q in LeavesPlaces(leaves, base, opt) ==>
      |q| > |base| && q[..|base|] == base && q[|base|].optional == opt && q[|base|].branch < |leaves|
    decreases leaves, 0
  {
    if leaves != [] {
      var leaf, place := leaves[|leaves| - 1], base + [Step(opt, |leaves| - 1)];
      LeavesPlacesBelow(leaves[..|leaves| - 1], base, opt);
      OptionalsPlacesBelow(leaf.optionals, place);
      forall q | q in LeafPlaces(leaf, place)
        ensures |q| > |base| && q[..|base|] == base && q[|base|] == Step(opt, |leaves| - 1)
      {
        if q in Repeat(place, |leaf.bgp|) {
          assert q == place;
        } else {
          assert q[..|place|] == place;
          assert q[..|base|] == q[..|place|][..|base|];
          assert q[|base|] == q[..|place|][|base|];
        }
      }
    }
  }

  // No earlier operand sits at, or below, the place of the next leaf.
  lemma NextPlaceIsFree(places: seq<Place>, base: Place, opt: nat, branch: nat, i: nat)
    requires NothingFrom(places, base, opt, branch) && i < |places|
    ensures
      var place := base + [Step(opt, branch)];
      !(|places[i]| >= |place| && places[i][..|place|] == place)
  {
    PrefixSplit(places[i], base, Step(opt, branch));
  }

  lemma PrefixSplit(q: Place, base: Place, step: Step)
    ensures |q| > |base| && q[..|base| + 1] == base + [step] ==> q[..|base|] == base && q[|base|] == step
  {
    if |q| > |base| && q[..|base| + 1] == base + [step] {
      assert q[..|base|] == q[..|base| + 1][..|base|];
      assert q[|base|] == q[..|base| + 1][|base|];
    }
  }

  lemma FreshLeaf(places: seq<Place>, base: Place, opt: nat, branch: nat, k: nat)
    requires NothingFrom(places, base, opt, branch)
    ensures
      var place := base + [Step(opt, branch)];
      var after := places + Repeat(place, k);
      && NothingFrom(after, place, 0, 0)
      && ListsPlace(Range(|places|, k), after, place)
      && forall i :: 0 <= i < |after| ==> !ChildOf(place, after[i])
  {
    var place := base + [Step(opt, branch)];
    RangeFacts(|places|, k);
    forall i | 0 <= i < |places| ensures !(|places[i]| >= |place| && places[i][..|place|] == place) {
      NextPlaceIsFree(places, base, opt, branch, i);
    }
    assert place[..|place|] == place;
    assert forall i :: 0 <= i < |places| ==> places[i] != place;
  }

  // Inside a freshly entered leaf nothing has been visited yet.
  lemma {:induction false} EnterOptionals(w: Walk, places: seq<Place>, base: Place, opt: nat, branch: nat,
                                          parent: Option<seq<nat>>, bgp: seq<TriplePattern>)
    requires WalkInvariant(w, places, base, opt, branch, parent)
    requires |places| + |bgp| <= 256
    ensures
      var place := base + [Step(opt, branch)];
      var (entered, group) := EnterLeaf(bgp, parent, w);
      WalkInvariant(Walk(entered.out, [], []), places + Repeat(place, |bgp|), place, 0, 0, Some(group))
  {
    EnterLeafShape(bgp, parent, w, places, base, opt, branch);
    EnterLeafLists(bgp, parent, w);
    FreshLeaf(places, base, opt, branch, |bgp|);
  }

  // The places of a leaf and everything below it, seen from the leaf's parent.
  lemma LeafPlacesBelow(leaf: Leaf, base: Place, opt: nat, branch: nat, i: nat)
    requires i < |LeafPlaces(leaf, base + [Step(opt, branch)])|
    ensures
      var q := LeafPlaces(leaf, base + [Step(opt, branch)])[i];
      && |q| > |base| && q[..|base|] == base && q[|base|] == Step(opt, branch)
      && (|q| == |base| + 1 <==> i < |leaf.bgp|)
  {
    var place, k := base + [Step(opt, branch)], |leaf.bgp|;
    var below, q := OptionalsPlaces(leaf.optionals, place), LeafPlaces(leaf, place)[i];
    OptionalsPlacesBelow(leaf.optionals, place);
    if i < k {
      assert q == place;
    } else {
      assert q == below[i - k] && below[i - k] in below;
      assert q[..|base|] == q[..|place|][..|base|];
      assert q[|base|] == q[..|place|][|base|];
    }
  }

  // Leaving a leaf, the next branch is free.
  lemma LeaveLeafPlaces(places: seq<Place>, base: Place, opt: nat, branch: nat, leaf: Leaf)
    requires NothingFrom(places, base, opt, branch)
    ensures
      var after := places + LeafPlaces(leaf, base + [Step(opt, branch)]);
      && NothingFrom(after, base, opt, branch + 1)
      && forall i :: |places| <= i < |after| ==>
           && |after[i]| > |base| && after[i][0] == (base + [Step(opt, branch)])[0] && after[i] != base
           && (ChildOf(base, after[i]) <==> i < |places| + |leaf.bgp|)
           && after[i][|base|] == Step(opt, branch)
  {
    var after := places + LeafPlaces(leaf, base + [Step(opt, branch)]);
    forall i | |places| <= i < |after|
      ensures |after[i]| > |base| && after[i][..|base|] == base && after[i][|base|] == Step(opt, branch)
      ensures |after[i]| == |base| + 1 <==> i < |places| + |leaf.bgp|
      ensures after[i][0] == (base + [Step(opt, branch)])[0]
    {
      LeafPlacesBelow(leaf, base, opt, branch, i - |places|);
      if base != [] {
        assert after[i][0] == after[i][..|base|][0];
      }
    }
  }

  // ... and the lists are as after entering it.
  lemma {:induction false} LeaveLeaf(w: Walk, places: seq<Place>, base: Place, opt: nat, branch: nat,
                                     parent: Option<seq<nat>>, leaf: Leaf, out: Output)
    requires WalkInvariant(w, places, base, opt, branch, parent)
    requires |places| + |leaf.bgp| <= 256
    requires HasShape(out.odg, places + LeafPlaces(leaf, base + [Step(opt, branch)]))
    ensures WalkInvariant(EnterLeaf(leaf.bgp, parent, w).0.(out := out), places + LeafPlaces(leaf, base + [Step(opt, branch)]),
                          base, opt, branch + 1, parent)
  {
    EnterLeafLists(leaf.bgp, parent, w);
    LeaveLeafPlaces(places, base, opt, branch, leaf);
    if parent.Some? {
      LeaveLeafLists(w, places, base, opt, branch, leaf, EnterLeaf(leaf.bgp, parent, w).0.(out := out));
    }
  }

  lemma {:induction false} LeaveLeafLists(w: Walk, places: seq<Place>, base: Place, opt: nat, branch: nat, leaf: Leaf, left: Walk)
    requires base != [] && ListsChildren(w, places, base, opt) && NothingFrom(places, base, opt, branch)
    requires left.opts == w.opts + Range(|places|, |leaf.bgp|) && left.union == w.union + Range(|places|, |leaf.bgp|)
    ensures ListsChildren(left, places + LeafPlaces(leaf, base + [Step(opt, branch)]), base, opt)
  {
    LeaveLeafPlaces(places, base, opt, branch, leaf);
    RangeFacts(|places|, |leaf.bgp|);
    NoDuplicatesConcat(w.opts, Range(|places|, |leaf.bgp|));
  }

  lemma NextOptional(w: Walk, places: seq<Place>, base: Place, opt: nat, branch: nat, parent: seq<nat>)
    requires WalkInvariant(w, places, base, opt, branch, Some(parent))
    ensures WalkInvariant(w.(union := []), places, base, opt + 1, 0, Some(parent))
  {
  }

  /** Walking leaves keeps the invariant, with the places of their operands appended. */
  lemma {:induction false} WalkLeavesShape(leaves: seq<Leaf>, parent: Option<seq<nat>>, w: Walk, places: seq<Place>, base: Place, opt: nat)
    requires WalkInvariant(w, places, base, opt, 0, parent)
    requires |places| + |LeavesPlaces(leaves, base, opt)| <= 256
    ensures WalkInvariant(WalkLeaves(leaves, parent, w), places + LeavesPlaces(leaves, base, opt), base, opt, |leaves|, parent)
    decreases leaves, 0
  {
    if leaves == [] {
      assert places + [] == places;
    } else {
      var init, leaf := leaves[..|leaves| - 1], leaves[|leaves| - 1];
      WalkLeavesShape(init, parent, w, places, base, opt);
      WalkLeafShape(leaf, parent, WalkLeaves(init, parent, w), places + LeavesPlaces(init, base, opt), base, opt, |init|);
      assert places + LeavesPlaces(leaves, base, opt)
          == (places + LeavesPlaces(init, base, opt)) + LeafPlaces(leaf, base + [Step(opt, |init|)]);
    }
  }

  lemma {:induction false} WalkLeafShape(leaf: Leaf, parent: Option<seq<nat>>, w: Walk, places: seq<Place>,
                                         base: Place, opt: nat, branch: nat)
    requires WalkInvariant(w, places, base, opt, branch, parent)
    requires |places| + |LeafPlaces(leaf, base + [Step(opt, branch)])| <= 256
    ensures WalkInvariant(WalkLeaf(leaf, parent, w), places + LeafPlaces(leaf, base + [Step(opt, branch)]), base, opt, branch + 1, parent)
    decreases leaf, 1
  {
    var place, own := base + [Step(opt, branch)], places + Repeat(base + [Step(opt, branch)], |leaf.bgp|);
    var (entered, group) := EnterLeaf(leaf.bgp, parent, w);
    var inner := Walk(entered.out, [], []);
    EnterOptionals(w, places, base, opt, branch, parent, leaf.bgp);
    WalkOptionalsShape(leaf.optionals, group, inner, own, place);
    assert HasShape(WalkOptionals(leaf.optionals, group, inner).out.odg, places + LeafPlaces(leaf, place)) by {
      assert own + OptionalsPlaces(leaf.optionals, place) == places + LeafPlaces(leaf, place);
    }
    LeaveLeaf(w, places, base, opt, branch, parent, leaf, WalkOptionals(leaf.optionals, group, inner).out);
  }

  lemma {:induction false} WalkOptionalsShape(nfs: seq<NormalForm>, group: seq<nat>, w: Walk, places: seq<Place>, place: Place)
    requires WalkInvariant(w, places, place, 0, 0, Some(group))
    requires |places| + |OptionalsPlaces(nfs, place)| <= 256
    ensures WalkInvariant(WalkOptionals(nfs, group, w), places + OptionalsPlaces(nfs, place), place, |nfs|, 0, Some(group))
    decreases nfs, 0
  {
    if nfs == [] {
      assert places + [] == places;
    } else {
      var init, leaves := nfs[..|nfs| - 1], nfs[|nfs| - 1].leaves;
      var before := WalkOptionals(init, group, w);
      WalkOptionalsShape(init, group, w, places, place);
      WalkLeavesShape(leaves, Some(group), before, places + OptionalsPlaces(init, place), place, |init|);
      assert places + OptionalsPlaces(nfs, place) == (places + OptionalsPlaces(init, place)) + LeavesPlaces(leaves, place, |init|);
      NextOptional(WalkLeaves(leaves, Some(group), before), places + OptionalsPlaces(nfs, place), place, |init|, |leaves|, group);
    }
  }

  /**
   The graph of a whole query, for any normal form of at most 256 triple patterns: operand i sits at
   place i, and the bags of dependencies and connections are exactly the expected ones.
   */
  lemma EmitShape(nf: NormalForm)
    requires |Places(nf)| <= 256
    ensures HasShape(Emit(nf).odg, Places(nf))
  {
    var w := Walk(EMPTY_OUTPUT, [], []);
    assert WalkInvariant(w, [], [], 0, 0, None);
    WalkLeavesShape(nf.leaves, None, w, [], [], 0);
    assert [] + Places(nf) == Places(nf);
  }

}
