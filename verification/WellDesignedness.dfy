/**
 Well-designed patterns, the precondition of the visitor: in every union-free branch, each variable
 of the body of an OPTIONAL that also occurs outside of it occurs in what stands on its left.
 */
module WellDesignedness {
  import opened Wrappers
  import opened Rdf
  import opened Bags
  import opened Patterns
  import opened Semantics
  import opened UnionFree

  // ---- all variables ----

  function BlocksVars(blocks: seq<TriplesBlock>): set<Variable> {
    PatternsVars(BlocksPatterns(blocks))
  }

  function BlockVars(block: Option<TriplesBlock>): set<Variable> {
    BlocksVars(BlockList(block))
  }

  function GroupVars(g: Group): set<Variable>
    decreases g, 0
  {
    PrefixVars(g.triplesBlock, g.subs)
  }

  function PrefixVars(first: Option<TriplesBlock>, subs: seq<Sub>): set<Variable>
    decreases subs, 0
  {
    if subs == [] then BlockVars(first)
    else PrefixVars(first, subs[..|subs| - 1]) + SubVars(subs[|subs| - 1])
  }

  function SubVars(sub: Sub): set<Variable>
    decreases sub, 0
  {
    var inner := match sub.pattern
      case UnionPattern(gou) => GroupsVars(gou.alternatives)
      case OptionalPattern(group) => GroupVars(group);
    inner + BlockVars(sub.triplesBlock)
  }

  function GroupsVars(gs: seq<Group>): set<Variable>
    decreases gs, 0
  {
    if gs == [] then {} else GroupsVars(gs[..|gs| - 1]) + GroupVars(gs[|gs| - 1])
  }

  function GousVars(gous: seq<GroupOrUnion>): set<Variable> {
    if gous == [] then {} else GousVars(gous[..|gous| - 1]) + GroupsVars(gous[|gous| - 1].alternatives)
  }

  // ---- variables of every union-free branch, with or without those of OPTIONALs ----

  function BranchVars(g: Group, optionals: bool): set<Variable>
    decreases g, 0
  {
    PrefixBranchVars(g.triplesBlock, g.subs, optionals)
  }

  function PrefixBranchVars(first: Option<TriplesBlock>, subs: seq<Sub>, optionals: bool): set<Variable>
    decreases subs, 0
  {
    if subs == [] then BlockVars(first)
    else PrefixBranchVars(first, subs[..|subs| - 1], optionals) + SubBranchVars(subs[|subs| - 1], optionals)
  }

  function SubBranchVars(sub: Sub, optionals: bool): set<Variable>
    decreases sub, 0
  {
    var inner := match sub.pattern
      case UnionPattern(gou) => CommonBranchVars(gou.alternatives, optionals)
      case OptionalPattern(group) => if optionals then GroupVars(group) else {};
    inner + BlockVars(sub.triplesBlock)
  }

  function CommonBranchVars(gs: seq<Group>, optionals: bool): set<Variable>
    decreases gs, 0
  {
    if gs == [] then {}
    else if |gs| == 1 then BranchVars(gs[0], optionals)
    else CommonBranchVars(gs[..|gs| - 1], optionals) * BranchVars(gs[|gs| - 1], optionals)
  }

  // ---- well-designedness ----

  /**
   `g` is well designed inside a query whose remaining part mentions the variables `outside`: each
   OPTIONAL is checked against the branches of what precedes and follows it, one at a time.
   */
  predicate WellDesigned(g: Group, outside: set<Variable>)
    decreases g, 0
  {
    WellDesignedPrefix(g.triplesBlock, g.subs, outside)
  }

  predicate WellDesignedPrefix(first: Option<TriplesBlock>, subs: seq<Sub>, outside: set<Variable>)
    decreases subs, 0
  {
    subs == [] ||
    var init, last := subs[..|subs| - 1], subs[|subs| - 1];
    && (forall s :: s in SubBranches(last) ==> WellDesignedPrefix(first, init, outside + SubVars(s)))
    && (forall p :: p in SubsBranches(init) ==>
          WellDesignedEntry(last, outside + BlockVars(last.triplesBlock), PrefixVars(first, p)))
  }

  predicate WellDesignedEntry(sub: Sub, after: set<Variable>, before: set<Variable>)
    decreases sub, 0
  {
    match sub.pattern
    case UnionPattern(gou) => WellDesignedAll(gou.alternatives, before + after)
    case OptionalPattern(group) => GroupVars(group) * after <= before && WellDesigned(group, before + after)
  }

  predicate WellDesignedAll(gs: seq<Group>, outside: set<Variable>)
    decreases gs, 0
  {
    gs == [] || (WellDesignedAll(gs[..|gs| - 1], outside) && WellDesigned(gs[|gs| - 1], outside))
  }

  /**
   All branches at once: what an OPTIONAL shares with anything outside occurs in every branch on its
   left. On a union-free group this is the same.
   */
  predicate UniformlyWellDesigned(g: Group, outside: set<Variable>)
    decreases g, 0
  {
    UniformPrefix(g.triplesBlock, g.subs, outside)
  }

  predicate UniformPrefix(first: Option<TriplesBlock>, subs: seq<Sub>, outside: set<Variable>)
    decreases subs, 0
  {
    subs == [] ||
    var init, last := subs[..|subs| - 1], subs[|subs| - 1];
    && UniformPrefix(first, init, outside + SubVars(last))
    && UniformEntry(last, outside + BlockVars(last.triplesBlock), PrefixVars(first, init), PrefixBranchVars(first, init, true))
  }

  predicate UniformEntry(sub: Sub, after: set<Variable>, before: set<Variable>, leftVars: set<Variable>)
    decreases sub, 0
  {
    match sub.pattern
    case UnionPattern(gou) => UniformAll(gou.alternatives, before + after)
    case OptionalPattern(group) => GroupVars(group) * after <= leftVars && WellDesigned(group, before + after)
  }

  predicate UniformAll(gs: seq<Group>, outside: set<Variable>)
    decreases gs, 0
  {
    gs == [] || (UniformAll(gs[..|gs| - 1], outside) && UniformlyWellDesigned(gs[|gs| - 1], outside))
  }

  // ---- variables that every solution binds, and variables that a solution may bind ----

  lemma {:induction false} BlocksPatternsConcat(a: seq<TriplesBlock>, b: seq<TriplesBlock>)
    ensures BlocksPatterns(a + b) == BlocksPatterns(a) + BlocksPatterns(b)
  {
    if b == [] {
      assert a + b == a;
    } else {
      var init, last := b[..|b| - 1], b[|b| - 1];
      assert (a + b)[..|a + b| - 1] == a + init;
      BlocksPatternsConcat(a, init);
      assert BlocksPatterns(a) + (BlocksPatterns(init) + BlockPatterns(last))
        == (BlocksPatterns(a) + BlocksPatterns(init)) + BlockPatterns(last);
    }
  }

  lemma BlocksVarsConcat(a: seq<TriplesBlock>, b: seq<TriplesBlock>)
    ensures BlocksVars(a + b) == BlocksVars(a) + BlocksVars(b)
  {
    BlocksPatternsConcat(a, b);
    PatternsVarsConcat(BlocksPatterns(a), BlocksPatterns(b));
  }

  lemma BgpDomain(graph: Graph, tps: seq<TriplePattern>)
    ensures Within(EvalBgp(graph, tps), PatternsVars(tps)) && Binds(EvalBgp(graph, tps), PatternsVars(tps))
  {
    forall m | m in EvalBgp(graph, tps) ensures m.Keys == PatternsVars(tps) {
      BgpMembers(graph, tps, m);
    }
  }

  lemma {:induction false} EvalDomain(graph: Graph, g: Group)
    ensures Within(Eval(graph, g), GroupVars(g)) && Binds(Eval(graph, g), BranchVars(g, false))
    decreases g, 0
  {
    PrefixDomain(graph, g.triplesBlock, g.subs);
  }

  lemma {:induction false} PrefixDomain(graph: Graph, first: Option<TriplesBlock>, subs: seq<Sub>)
    ensures Within(EvalPrefix(graph, first, subs), PrefixVars(first, subs))
    ensures Binds(EvalPrefix(graph, first, subs), PrefixBranchVars(first, subs, false))
    decreases subs, 0
  {
    if subs == [] {
      BgpDomain(graph, BlocksPatterns(BlockList(first)));
    } else {
      var init, last := subs[..|subs| - 1], subs[|subs| - 1];
      PrefixDomain(graph, first, init);
      EntryDomain(graph, EvalPrefix(graph, first, init), last, PrefixVars(first, init), PrefixBranchVars(first, init, false));
    }
  }

  lemma {:induction false} EntryDomain(graph: Graph, left: Bag, sub: Sub, vars: set<Variable>, bound: set<Variable>)
    requires Within(left, vars) && Binds(left, bound)
    ensures Within(EvalEntry(graph, left, sub), vars + SubVars(sub))
    ensures Binds(EvalEntry(graph, left, sub), bound + SubBranchVars(sub, false))
    decreases sub, 0
  {
    var block, blockVars := EvalBlock(graph, sub.triplesBlock), BlockVars(sub.triplesBlock);
    BgpDomain(graph, BlocksPatterns(BlockList(sub.triplesBlock)));
    match sub.pattern {
      case UnionPattern(gou) =>
        var gs := gou.alternatives;
        UnionDomain(graph, gs);
        JoinDomain(left, EvalUnion(graph, gs), vars, GroupsVars(gs), bound, CommonBranchVars(gs, false));
        JoinDomain(Join(left, EvalUnion(graph, gs)), block, vars + GroupsVars(gs), blockVars,
                   bound + CommonBranchVars(gs, false), blockVars);
      case OptionalPattern(group) =>
        EvalDomain(graph, group);
        LeftJoinDomain(left, Eval(graph, group), vars, GroupVars(group), bound);
        JoinDomain(LeftJoin(left, Eval(graph, group)), block, vars + GroupVars(group), blockVars, bound, blockVars);
    }
  }

  lemma {:induction false} UnionDomain(graph: Graph, gs: seq<Group>)
    ensures Within(EvalUnion(graph, gs), GroupsVars(gs))
    ensures Binds(EvalUnion(graph, gs), CommonBranchVars(gs, false))
    decreases gs, 0
  {
    if gs != [] {
      UnionDomain(graph, gs[..|gs| - 1]);
      EvalDomain(graph, gs[|gs| - 1]);
      if |gs| == 1 {
        assert EvalUnion(graph, gs[..0]) == [];
      }
    }
  }

  // ---- fewer variables outside keep a pattern well designed ----

  lemma {:induction false} WellDesignedWeaken(g: Group, outside: set<Variable>, fewer: set<Variable>)
    requires WellDesigned(g, outside) && fewer <= outside
    ensures WellDesigned(g, fewer)
    decreases g, 0
  {
    WeakenPrefix(g.triplesBlock, g.subs, outside, fewer);
  }

  lemma {:induction false} WeakenPrefix(first: Option<TriplesBlock>, subs: seq<Sub>, outside: set<Variable>, fewer: set<Variable>)
    requires WellDesignedPrefix(first, subs, outside) && fewer <= outside
    ensures WellDesignedPrefix(first, subs, fewer)
    decreases subs, 0
  {
    if subs != [] {
      var init, last := subs[..|subs| - 1], subs[|subs| - 1];
      forall s | s in SubBranches(last) ensures WellDesignedPrefix(first, init, fewer + SubVars(s)) {
        WeakenPrefix(first, init, outside + SubVars(s), fewer + SubVars(s));
      }
      forall p | p in SubsBranches(init)
        ensures WellDesignedEntry(last, fewer + BlockVars(last.triplesBlock), PrefixVars(first, p))
      {
        WeakenEntry(last, outside + BlockVars(last.triplesBlock), fewer + BlockVars(last.triplesBlock), PrefixVars(first, p));
      }
    }
  }

  lemma {:induction false} WeakenEntry(sub: Sub, after: set<Variable>, fewer: set<Variable>, before: set<Variable>)
    requires WellDesignedEntry(sub, after, before) && fewer <= after
    ensures WellDesignedEntry(sub, fewer, before)
    decreases sub, 0
  {
    match sub.pattern {
      case UnionPattern(gou) => WeakenAll(gou.alternatives, before + after, before + fewer);
      case OptionalPattern(group) => WellDesignedWeaken(group, before + after, before + fewer);
    }
  }

  lemma {:induction false} WeakenAll(gs: seq<Group>, outside: set<Variable>, fewer: set<Variable>)
    requires WellDesignedAll(gs, outside) && fewer <= outside
    ensures WellDesignedAll(gs, fewer)
    decreases gs, 0
  {
    if gs != [] {
      WeakenAll(gs[..|gs| - 1], outside, fewer);
      WellDesignedWeaken(gs[|gs| - 1], outside, fewer);
    }
  }

  lemma {:induction false} UniformWeaken(g: Group, outside: set<Variable>, fewer: set<Variable>)
    requires UniformlyWellDesigned(g, outside) && fewer <= outside
    ensures UniformlyWellDesigned(g, fewer)
    decreases g, 0
  {
    UniformWeakenPrefix(g.triplesBlock, g.subs, outside, fewer);
  }

  lemma {:induction false} UniformWeakenPrefix(first: Option<TriplesBlock>, subs: seq<Sub>, outside: set<Variable>, fewer: set<Variable>)
    requires UniformPrefix(first, subs, outside) && fewer <= outside
    ensures UniformPrefix(first, subs, fewer)
    decreases subs, 0
  {
    if subs != [] {
      var init, last := subs[..|subs| - 1], subs[|subs| - 1];
      UniformWeakenPrefix(first, init, outside + SubVars(last), fewer + SubVars(last));
      UniformWeakenEntry(last, outside + BlockVars(last.triplesBlock), fewer + BlockVars(last.triplesBlock),
                         PrefixVars(first, init), PrefixBranchVars(first, init, true));
    }
  }

  lemma {:induction false} UniformWeakenEntry(sub: Sub, after: set<Variable>, fewer: set<Variable>,
                                              before: set<Variable>, leftVars: set<Variable>)
    requires UniformEntry(sub, after, before, leftVars) && fewer <= after
    ensures UniformEntry(sub, fewer, before, leftVars)
    decreases sub, 0
  {
    match sub.pattern {
      case UnionPattern(gou) => UniformWeakenAll(gou.alternatives, before + after, before + fewer);
      case OptionalPattern(group) => WellDesignedWeaken(group, before + after, before + fewer);
    }
  }

  lemma {:induction false} UniformWeakenAll(gs: seq<Group>, outside: set<Variable>, fewer: set<Variable>)
    requires UniformAll(gs, outside) && fewer <= outside
    ensures UniformAll(gs, fewer)
    decreases gs, 0
  {
    if gs != [] {
      UniformWeakenAll(gs[..|gs| - 1], outside, fewer);
      UniformWeaken(gs[|gs| - 1], outside, fewer);
    }
  }

  // ---- a variable of every branch that is also used outside is bound by every solution ----

  lemma {:induction false} OutsideIsBound(g: Group, outside: set<Variable>)
    requires UniformlyWellDesigned(g, outside)
    ensures BranchVars(g, true) * outside <= BranchVars(g, false)
    decreases g, 0
  {
    OutsideIsBoundPrefix(g.triplesBlock, g.subs, outside);
  }

  lemma {:induction false} OutsideIsBoundPrefix(first: Option<TriplesBlock>, subs: seq<Sub>, outside: set<Variable>)
    requires UniformPrefix(first, subs, outside)
    ensures PrefixBranchVars(first, subs, true) * outside <= PrefixBranchVars(first, subs, false)
    decreases subs, 0
  {
    if subs != [] {
      var init, last := subs[..|subs| - 1], subs[|subs| - 1];
      OutsideIsBoundPrefix(first, init, outside + SubVars(last));
      OutsideIsBoundEntry(last, outside, PrefixVars(first, init), PrefixBranchVars(first, init, true));
      forall v | v in PrefixBranchVars(first, subs, true) && v in outside
        ensures v in PrefixBranchVars(first, subs, false)
      {
        assert v in PrefixBranchVars(first, init, true) || v in SubBranchVars(last, true) * outside;
        assert v in PrefixBranchVars(first, init, true) ==> v in PrefixBranchVars(first, init, true) * (outside + SubVars(last));
      }
    }
  }

  lemma {:induction false} OutsideIsBoundEntry(sub: Sub, outside: set<Variable>, before: set<Variable>, leftVars: set<Variable>)
    requires UniformEntry(sub, outside + BlockVars(sub.triplesBlock), before, leftVars)
    ensures SubBranchVars(sub, true) * outside <= SubBranchVars(sub, false) + leftVars
    decreases sub, 0
  {
    match sub.pattern {
      case UnionPattern(gou) =>
        OutsideIsBoundAll(gou.alternatives, before + (outside + BlockVars(sub.triplesBlock)));
      case OptionalPattern(group) =>
    }
  }

  lemma {:induction false} OutsideIsBoundAll(gs: seq<Group>, outside: set<Variable>)
    requires UniformAll(gs, outside)
    ensures CommonBranchVars(gs, true) * outside <= CommonBranchVars(gs, false)
    decreases gs, 0
  {
    if gs != [] {
      OutsideIsBoundAll(gs[..|gs| - 1], outside);
      OutsideIsBound(gs[|gs| - 1], outside);
    }
  }

  // ---- well designed means: every union-free branch is ----

  /** On a branch, the variables of every branch are simply its variables. */
  lemma {:induction false} BranchVarsOfBranch(g: Group, b: Group)
    requires b in Branches(g)
    ensures BranchVars(b, true) == GroupVars(b)
    decreases g, 0
  {
    BranchCollects(g, b);
    BranchVarsOfPrefix(b.triplesBlock, g.subs, b.subs);
  }

  lemma {:induction false} BranchVarsOfPrefix(first: Option<TriplesBlock>, subs: seq<Sub>, q: seq<Sub>)
    requires q in SubsBranches(subs)
    ensures PrefixBranchVars(first, q, true) == PrefixVars(first, q)
    decreases subs, 0
  {
    if subs != [] {
      CrossMembers(SubsBranches(subs[..|subs| - 1]), SubBranches(subs[|subs| - 1]), q);
      BranchVarsOfPrefix(first, subs[..|subs| - 1], q[..|q| - 1]);
      BranchVarsOfSub(subs[|subs| - 1], q[|q| - 1]);
    }
  }

  lemma {:induction false} BranchVarsOfSub(sub: Sub, s: Sub)
    requires s in SubBranches(sub)
    ensures SubBranchVars(s, true) == SubVars(s)
    decreases sub, 0
  {
    if sub.pattern.UnionPattern? {
      SubsWithMembers(AllBranches(sub.pattern.gou.alternatives), sub.triplesBlock, s);
      var b := s.pattern.gou.alternatives[0];
      BranchVarsOfAlternatives(sub.pattern.gou.alternatives, b);
      assert s.pattern.gou.alternatives == [b];
      assert GroupsVars([b]) == GroupsVars([]) + GroupVars(b);
    }
  }

  lemma {:induction false} BranchVarsOfAlternatives(gs: seq<Group>, b: Group)
    requires b in AllBranches(gs)
    ensures BranchVars(b, true) == GroupVars(b)
    decreases gs, 0
  {
    if b in Branches(gs[|gs| - 1]) {
      BranchVarsOfBranch(gs[|gs| - 1], b);
    } else {
      BranchVarsOfAlternatives(gs[..|gs| - 1], b);
    }
  }

  /** In a well-designed group, every solution of a branch binds the variables of that branch used outside. */
  lemma OutsideVariablesAreBound(graph: Graph, g: Group, b: Group, outside: set<Variable>)
    requires WellDesigned(g, outside) && b in Branches(g)
    ensures Binds(Eval(graph, b), GroupVars(b) * outside)
  {
    WellDesignedByBranch(g, outside);
    OutsideIsBound(b, outside);
    BranchVarsOfBranch(g, b);
    EvalDomain(graph, b);
  }

  ghost predicate EachUniform(bs: seq<Group>, outside: set<Variable>) {
    forall b :: b in bs ==> UniformlyWellDesigned(b, outside)
  }

  ghost predicate EachPrefixUniform(first: Option<TriplesBlock>, qs: seq<seq<Sub>>, outside: set<Variable>) {
    forall q :: q in qs ==> UniformPrefix(first, q, outside)
  }

  ghost predicate EachEntryUniform(subs: seq<Sub>, after: set<Variable>, before: set<Variable>) {
    forall s :: s in subs ==> UniformEntry(s, after, before, before)
  }

  /** A group is well designed if and only if each of its branches is. */
  lemma {:induction false} WellDesignedByBranch(g: Group, outside: set<Variable>)
    ensures WellDesigned(g, outside) <==> EachUniform(Branches(g), outside)
    decreases g, 0
  {
    hide WellDesignedPrefix, UniformPrefix, GroupsWith, SubsBranches;
    var first, qs := g.triplesBlock, SubsBranches(g.subs);
    PrefixByBranch(first, g.subs, outside);
    if WellDesigned(g, outside) {
      forall b | b in Branches(g) ensures UniformlyWellDesigned(b, outside) {
        GroupsWithMembers(first, qs, b);
      }
    }
    if EachUniform(Branches(g), outside) {
      forall q | q in qs ensures UniformPrefix(first, q, outside) {
        GroupsWithMembers(first, qs, Group(first, q));
        assert UniformlyWellDesigned(Group(first, q), outside);
      }
    }
  }

  lemma {:induction false} PrefixByBranch(first: Option<TriplesBlock>, subs: seq<Sub>, outside: set<Variable>)
    ensures WellDesignedPrefix(first, subs, outside) <==> EachPrefixUniform(first, SubsBranches(subs), outside)
    decreases subs, 0
  {
    if subs == [] {
      assert forall q :: q in SubsBranches(subs) ==> q == [];
    } else {
      if WellDesignedPrefix(first, subs, outside) {
        PrefixToBranches(first, subs, outside);
      }
      if EachPrefixUniform(first, SubsBranches(subs), outside) {
        BranchesToPrefix(first, subs, outside);
      }
    }
  }

  lemma {:induction false} PrefixToBranches(first: Option<TriplesBlock>, subs: seq<Sub>, outside: set<Variable>)
    requires subs != [] && WellDesignedPrefix(first, subs, outside)
    ensures EachPrefixUniform(first, SubsBranches(subs), outside)
    decreases subs, 0, 0
  {
    var init, last := subs[..|subs| - 1], subs[|subs| - 1];
    var after := outside + BlockVars(last.triplesBlock);
    hide SubBranches, WellDesignedEntry, UniformEntry, PrefixVars, PrefixBranchVars, BlockVars, Cross;
    forall q | q in SubsBranches(subs) ensures UniformPrefix(first, q, outside) {
      CrossMembers(SubsBranches(init), SubBranches(last), q);
      hide SubsBranches;
      var p, s := q[..|q| - 1], q[|q| - 1];
      assert WellDesignedPrefix(first, init, outside + SubVars(s));
      PrefixByBranch(first, init, outside + SubVars(s));
      BranchVarsOfPrefix(first, init, p);
      EntryByBranch(last, after, PrefixVars(first, p));
      SubBranchBlock(last, s);
      assert UniformEntry(s, after, PrefixVars(first, p), PrefixVars(first, p));
    }
  }

  lemma {:induction false} BranchesToPrefix(first: Option<TriplesBlock>, subs: seq<Sub>, outside: set<Variable>)
    requires subs != [] && EachPrefixUniform(first, SubsBranches(subs), outside)
    ensures WellDesignedPrefix(first, subs, outside)
    decreases subs, 0, 0
  {
    hide SubBranches, SubsBranches, WellDesignedEntry, UniformEntry, UniformPrefix, PrefixVars, BlockVars, SubVars;
    var init, last := subs[..|subs| - 1], subs[|subs| - 1];
    forall s | s in SubBranches(last) ensures WellDesignedPrefix(first, init, outside + SubVars(s)) {
      forall p | p in SubsBranches(init) ensures UniformPrefix(first, p, outside + SubVars(s)) {
        BranchToPrefix(first, subs, outside, p, s);
      }
      PrefixByBranch(first, init, outside + SubVars(s));
    }
    forall p | p in SubsBranches(init)
      ensures WellDesignedEntry(last, outside + BlockVars(last.triplesBlock), PrefixVars(first, p))
    {
      forall s | s in SubBranches(last)
        ensures UniformEntry(s, outside + BlockVars(last.triplesBlock), PrefixVars(first, p), PrefixVars(first, p))
      {
        BranchToPrefix(first, subs, outside, p, s);
      }
      EntryByBranch(last, outside + BlockVars(last.triplesBlock), PrefixVars(first, p));
    }
  }

  lemma BranchToPrefix(first: Option<TriplesBlock>, subs: seq<Sub>, outside: set<Variable>, p: seq<Sub>, s: Sub)
    requires subs != [] && EachPrefixUniform(first, SubsBranches(subs), outside)
    requires p in SubsBranches(subs[..|subs| - 1]) && s in SubBranches(subs[|subs| - 1])
    ensures UniformPrefix(first, p, outside + SubVars(s))
    ensures UniformEntry(s, outside + BlockVars(subs[|subs| - 1].triplesBlock), PrefixVars(first, p), PrefixVars(first, p))
  {
    var q := p + [s];
    CrossMembers(SubsBranches(subs[..|subs| - 1]), SubBranches(subs[|subs| - 1]), q);
    assert UniformPrefix(first, q, outside);
    assert q[..|q| - 1] == p;
    BranchVarsOfPrefix(first, subs[..|subs| - 1], p);
    SubBranchBlock(subs[|subs| - 1], s);
  }

  lemma SubBranchBlock(sub: Sub, s: Sub)
    requires s in SubBranches(sub)
    ensures s.triplesBlock == sub.triplesBlock
  {
  }

  lemma {:induction false} EntryByBranch(sub: Sub, after: set<Variable>, before: set<Variable>)
    ensures WellDesignedEntry(sub, after, before) <==> EachEntryUniform(SubBranches(sub), after, before)
    decreases sub, 0
  {
    match sub.pattern {
      case OptionalPattern(_) =>
        assert sub in SubBranches(sub);
      case UnionPattern(gou) =>
        AllByBranch(gou.alternatives, before + after);
        var bs := AllBranches(gou.alternatives);
        hide WellDesignedAll, UniformAll, UniformlyWellDesigned, AllBranches, SubsWith;
        forall s | s in SubBranches(sub) && EachUniform(bs, before + after) ensures UniformEntry(s, after, before, before) {
          SubsWithMembers(bs, sub.triplesBlock, s);
          UniformSingle(s.pattern.gou.alternatives, before + after);
        }
        forall b | b in bs && EachEntryUniform(SubBranches(sub), after, before) ensures UniformlyWellDesigned(b, before + after) {
          var s := Sub(UnionPattern(Single(b)), sub.triplesBlock);
          SubsWithMembers(bs, sub.triplesBlock, s);
          assert UniformEntry(s, after, before, before);
          UniformSingle([b], before + after);
        }
    }
  }

  lemma UniformSingle(bs: seq<Group>, outside: set<Variable>)
    requires |bs| == 1
    ensures UniformAll(bs, outside) <==> UniformlyWellDesigned(bs[0], outside)
  {
    assert bs[..|bs| - 1] == [];
  }

  lemma {:induction false} AllByBranch(gs: seq<Group>, outside: set<Variable>)
    ensures WellDesignedAll(gs, outside) <==> EachUniform(AllBranches(gs), outside)
    decreases gs, 0
  {
    if gs != [] {
      AllByBranch(gs[..|gs| - 1], outside);
      WellDesignedByBranch(gs[|gs| - 1], outside);
      EachUniformConcat(AllBranches(gs[..|gs| - 1]), Branches(gs[|gs| - 1]), outside);
    }
  }

  lemma EachUniformConcat(a: seq<Group>, b: seq<Group>, outside: set<Variable>)
    ensures EachUniform(a + b, outside) <==> EachUniform(a, outside) && EachUniform(b, outside)
  {
    hide UniformlyWellDesigned;
    if EachUniform(a + b, outside) {
      assert forall x :: x in a ==> x in a + b;
      assert forall x :: x in b ==> x in a + b;
    }
  }

  // ---- what it means for simple patterns ----

  predicate HasNoOptional(g: Group)
    decreases g, 0
  {
    HaveNoOptional(g.subs)
  }

  predicate HaveNoOptional(subs: seq<Sub>)
    decreases subs, 0
  {
    subs == [] || (HaveNoOptional(subs[..|subs| - 1]) && IsNoOptional(subs[|subs| - 1]))
  }

  predicate IsNoOptional(sub: Sub)
    decreases sub, 0
  {
    sub.pattern.UnionPattern? && AlternativesHaveNoOptional(sub.pattern.gou.alternatives)
  }

  predicate AlternativesHaveNoOptional(gs: seq<Group>)
    decreases gs, 0
  {
    gs == [] || (AlternativesHaveNoOptional(gs[..|gs| - 1]) && HasNoOptional(gs[|gs| - 1]))
  }

  /** Without OPTIONALs, any nesting of groups and UNIONs is well designed. */
  lemma {:induction false} NoOptionalIsWellDesigned(g: Group, outside: set<Variable>)
    requires HasNoOptional(g)
    ensures WellDesigned(g, outside)
    decreases g, 0
  {
    NoOptionalPrefix(g.triplesBlock, g.subs, outside);
  }

  lemma {:induction false} NoOptionalPrefix(first: Option<TriplesBlock>, subs: seq<Sub>, outside: set<Variable>)
    requires HaveNoOptional(subs)
    ensures WellDesignedPrefix(first, subs, outside)
    decreases subs, 0
  {
    if subs != [] {
      var init, last := subs[..|subs| - 1], subs[|subs| - 1];
      forall s | s in SubBranches(last) ensures WellDesignedPrefix(first, init, outside + SubVars(s)) {
        NoOptionalPrefix(first, init, outside + SubVars(s));
      }
      forall p | p in SubsBranches(init)
        ensures WellDesignedEntry(last, outside + BlockVars(last.triplesBlock), PrefixVars(first, p))
      {
        NoOptionalEntry(last, outside + BlockVars(last.triplesBlock), PrefixVars(first, p));
      }
    }
  }

  lemma {:induction false} NoOptionalEntry(sub: Sub, after: set<Variable>, before: set<Variable>)
    requires IsNoOptional(sub)
    ensures WellDesignedEntry(sub, after, before)
    decreases sub, 0
  {
    NoOptionalAlternatives(sub.pattern.gou.alternatives, before + after);
  }

  lemma {:induction false} NoOptionalAlternatives(gs: seq<Group>, outside: set<Variable>)
    requires AlternativesHaveNoOptional(gs)
    ensures WellDesignedAll(gs, outside)
    decreases gs, 0
  {
    if gs != [] {
      NoOptionalAlternatives(gs[..|gs| - 1], outside);
      NoOptionalIsWellDesigned(gs[|gs| - 1], outside);
    }
  }

  // `{ block OPTIONAL { body } after }`, with any group as body.
  function WithOptional(block: Option<TriplesBlock>, body: Group, after: Option<TriplesBlock>): Group {
    Group(block, [Sub(OptionalPattern(body), after)])
  }

  /**
   For one OPTIONAL: what its body shares with the block behind it or with the surroundings occurs in
   the block in front of it; and the body itself is well designed in these surroundings.
   */
  lemma OptionalIsWellDesigned(block: Option<TriplesBlock>, body: Group, after: Option<TriplesBlock>, outside: set<Variable>)
    ensures WellDesigned(WithOptional(block, body, after), outside) <==>
      && GroupVars(body) * (outside + BlockVars(after)) <= BlockVars(block)
      && WellDesigned(body, BlockVars(block) + (outside + BlockVars(after)))
  {
    var subs := WithOptional(block, body, after).subs;
    var none: seq<Sub> := [];
    assert subs[..|subs| - 1] == none;
    assert PrefixVars(block, none) == BlockVars(block);
    assert none in SubsBranches(none) && forall p :: p in SubsBranches(none) ==> p == none;
    hide GroupVars, BlockVars, WellDesigned, SubVars;
    assert forall o :: WellDesignedPrefix(block, none, o);
    assert WellDesignedEntry(subs[0], outside + BlockVars(after), BlockVars(block)) <==>
      && GroupVars(body) * (outside + BlockVars(after)) <= BlockVars(block)
      && WellDesigned(body, BlockVars(block) + (outside + BlockVars(after)));
    assert WellDesignedPrefix(block, subs, outside) <==> WellDesignedEntry(subs[0], outside + BlockVars(after), BlockVars(block));
    OptionalIsGroup(block, body, after, outside);
  }

  lemma OptionalIsGroup(block: Option<TriplesBlock>, body: Group, after: Option<TriplesBlock>, outside: set<Variable>)
    ensures WellDesigned(WithOptional(block, body, after), outside)
       <==> WellDesignedPrefix(block, WithOptional(block, body, after).subs, outside)
  {
  }

}
