/**
 Main result on the rewriting: `Normalize` preserves the bag of solutions of every well-designed
 group graph pattern, and a pattern that is not well designed can change its solutions.
 */
module Preservation {
  import opened Wrappers
  import opened Rdf
  import opened Bags
  import opened Patterns
  import opened Semantics
  import opened UnionFree
  import opened WellDesignedness
  import opened Rewriting
  import opened Distribution

  // ---- the visitor's call state: what it means and what keeps it well designed ----

  // Everything a call has collected, joined with the group it is about to visit.
  ghost function PendingMeaning(graph: Graph, g: Group, gous: seq<GroupOrUnion>, tbs: seq<TriplesBlock>, opts: seq<Group>): Bag {
    AddOptionals(graph, Join(JoinUnions(graph, EvalBlocks(graph, tbs), gous), Eval(graph, g)), opts)
  }

  ghost function PendingMeanings(graph: Graph, gs: seq<Group>, gous: seq<GroupOrUnion>, tbs: seq<TriplesBlock>, opts: seq<Group>): Bag {
    if gs == [] then []
    else PendingMeanings(graph, Init(gs), gous, tbs, opts) + PendingMeaning(graph, Last(gs), gous, tbs, opts)
  }

  // Each alternative of each pending union is well designed next to all the other pending work.
  ghost predicate GousUniform(gous: seq<GroupOrUnion>, outside: set<Variable>) {
    gous != [] ==>
      && UniformAll(Last(gous).alternatives, outside + GousVars(Init(gous)))
      && GousUniform(Init(gous), outside + GroupsVars(Last(gous).alternatives))
  }

  ghost predicate EachWellDesigned(gs: seq<Group>) {
    forall i :: 0 <= i < |gs| ==> WellDesigned(gs[i], {})
  }

  ghost predicate PendingUniform(g: Group, gous: seq<GroupOrUnion>, tbs: seq<TriplesBlock>, opts: seq<Group>) {
    var around := BlocksVars(tbs) + GroupsVars(opts);
    && UniformlyWellDesigned(g, around + GousVars(gous))
    && GousUniform(gous, around + GroupVars(g))
    && EachWellDesigned(opts)
  }

  // ---- collecting the entries of a group keeps the call state well designed ----

  lemma {:induction false} GousVarsConcat(a: seq<GroupOrUnion>, b: seq<GroupOrUnion>)
    ensures GousVars(a + b) == GousVars(a) + GousVars(b)
  {
    if b == [] {
      assert a + b == a;
    } else {
      assert (a + b)[..|a + b| - 1] == a + b[..|b| - 1];
      GousVarsConcat(a, b[..|b| - 1]);
    }
  }

  lemma {:induction false} GroupsVarsConcat(a: seq<Group>, b: seq<Group>)
    ensures GroupsVars(a + b) == GroupsVars(a) + GroupsVars(b)
  {
    if b == [] {
      assert a + b == a;
    } else {
      assert (a + b)[..|a + b| - 1] == a + b[..|b| - 1];
      GroupsVarsConcat(a, b[..|b| - 1]);
    }
  }

  lemma {:induction false} GousWeaken(gous: seq<GroupOrUnion>, outside: set<Variable>, fewer: set<Variable>)
    requires GousUniform(gous, outside) && fewer <= outside
    ensures GousUniform(gous, fewer)
  {
    if gous != [] {
      UniformWeakenAll(Last(gous).alternatives, outside + GousVars(Init(gous)), fewer + GousVars(Init(gous)));
      GousWeaken(Init(gous), outside + GroupsVars(Last(gous).alternatives), fewer + GroupsVars(Last(gous).alternatives));
    }
  }

  ghost function CollectedVars(first: Option<TriplesBlock>, subs: seq<Sub>): set<Variable> {
    BlocksVars(TriplesOf(first, subs)) + GroupsVars(OptionalsOf(subs))
  }

  lemma SubParts(sub: Sub)
    ensures SubVars(sub) == GousVars(UnionsIn(sub)) + GroupsVars(OptionalsIn(sub)) + BlockVars(sub.triplesBlock)
  {
    match sub.pattern {
      case UnionPattern(gou) => assert GousVars([gou]) == GousVars([]) + GroupsVars(gou.alternatives);
      case OptionalPattern(group) => assert GroupsVars([group]) == GroupsVars([]) + GroupVars(group);
    }
  }

  lemma CollectedStep(first: Option<TriplesBlock>, subs: seq<Sub>)
    requires subs != []
    ensures CollectedVars(first, subs)
         == CollectedVars(first, Init(subs)) + GroupsVars(OptionalsIn(Last(subs))) + BlockVars(Last(subs).triplesBlock)
  {
    BlocksVarsConcat(TriplesOf(first, Init(subs)), BlockList(Last(subs).triplesBlock));
    GroupsVarsConcat(OptionalsOf(Init(subs)), OptionalsIn(Last(subs)));
  }

  lemma {:induction false} CollectedParts(first: Option<TriplesBlock>, subs: seq<Sub>)
    ensures PrefixVars(first, subs) == CollectedVars(first, subs) + GousVars(UnionsOf(subs))
  {
    if subs == [] {
      assert GroupsVars(OptionalsOf(subs)) == {};
    } else {
      CollectedParts(first, Init(subs));
      CollectedStep(first, subs);
      GousVarsConcat(UnionsOf(Init(subs)), UnionsIn(Last(subs)));
      SubParts(Last(subs));
      RegroupSets(CollectedVars(first, Init(subs)), GousVars(UnionsOf(Init(subs))), GousVars(UnionsIn(Last(subs))),
                  GroupsVars(OptionalsIn(Last(subs))), BlockVars(Last(subs).triplesBlock));
    }
  }

  lemma RegroupSets<T>(a: set<T>, b: set<T>, c: set<T>, d: set<T>, e: set<T>)
    ensures (a + b) + (c + d + e) == (a + d + e) + (b + c)
  {
  }

  lemma {:induction false} CollectUnions(first: Option<TriplesBlock>, subs: seq<Sub>, gous: seq<GroupOrUnion>, around: set<Variable>)
    requires UniformPrefix(first, subs, around + GousVars(gous))
    requires GousUniform(gous, around + PrefixVars(first, subs))
    ensures GousUniform(gous + UnionsOf(subs), around + CollectedVars(first, subs))
  {
    if subs == [] {
      assert gous + [] == gous;
      CollectedParts(first, subs);
    } else {
      var more := around + SubVars(Last(subs));
      assert around + GousVars(gous) + SubVars(Last(subs)) == more + GousVars(gous);
      assert around + PrefixVars(first, subs) == more + PrefixVars(first, Init(subs));
      CollectUnions(first, Init(subs), gous, more);
      CollectNextUnion(first, subs, gous, around);
    }
  }

  // One more entry behind a prefix whose unions are collected.
  lemma CollectNextUnion(first: Option<TriplesBlock>, subs: seq<Sub>, gous: seq<GroupOrUnion>, around: set<Variable>)
    requires subs != [] && UniformPrefix(first, subs, around + GousVars(gous))
    requires GousUniform(gous + UnionsOf(Init(subs)), around + SubVars(Last(subs)) + CollectedVars(first, Init(subs)))
    ensures GousUniform(gous + UnionsOf(subs), around + CollectedVars(first, subs))
  {
    hide UniformPrefix, WellDesignedAll, PrefixVars, SubVars, CollectedVars, GroupsVars;
    var last, inner := Last(subs), gous + UnionsOf(Init(subs));
    var outside := around + CollectedVars(first, subs);
    CollectedStep(first, subs);
    SubParts(last);
    GousWeaken(inner, around + SubVars(last) + CollectedVars(first, Init(subs)), outside + GousVars(UnionsIn(last)));
    match last.pattern {
      case OptionalPattern(_) =>
        assert outside + {} == outside;
        assert gous + UnionsOf(subs) == inner;
      case UnionPattern(gou) =>
        CollectLastUnion(first, subs, gou, gous, around);
        assert gous + UnionsOf(subs) == inner + [gou];
        assert GousVars([gou]) == GousVars([]) + GroupsVars(gou.alternatives) == GroupsVars(gou.alternatives);
        assert Last(inner + [gou]) == gou && Init(inner + [gou]) == inner;
    }
  }

  lemma CollectLastUnion(first: Option<TriplesBlock>, subs: seq<Sub>, gou: GroupOrUnion, gous: seq<GroupOrUnion>, around: set<Variable>)
    requires subs != [] && Last(subs).pattern == UnionPattern(gou)
    requires UniformPrefix(first, subs, around + GousVars(gous))
    ensures UniformAll(gou.alternatives, around + CollectedVars(first, subs) + GousVars(gous + UnionsOf(Init(subs))))
  {
    var init, last := Init(subs), Last(subs);
    CollectedStep(first, subs);
    CollectedParts(first, init);
    GousVarsConcat(gous, UnionsOf(init));
    UniformWeakenAll(gou.alternatives, PrefixVars(first, init) + (around + GousVars(gous) + BlockVars(last.triplesBlock)),
              around + CollectedVars(first, subs) + GousVars(gous + UnionsOf(init)));
  }

  lemma {:induction false} CollectOptionals(first: Option<TriplesBlock>, subs: seq<Sub>, outside: set<Variable>)
    requires UniformPrefix(first, subs, outside)
    ensures EachWellDesigned(OptionalsOf(subs))
  {
    if subs != [] {
      var init, last := subs[..|subs| - 1], subs[|subs| - 1];
      CollectOptionals(first, init, outside + SubVars(last));
      if last.pattern.OptionalPattern? {
        WellDesignedWeaken(last.pattern.group, PrefixVars(first, init) + (outside + BlockVars(last.triplesBlock)), {});
      }
    }
  }

  /** What one call hands on stays well designed. */
  lemma CollectKeepsUniform(g: Group, gous: seq<GroupOrUnion>, tbs: seq<TriplesBlock>, opts: seq<Group>)
    requires PendingUniform(g, gous, tbs, opts)
    ensures GousUniform(gous + Unions(g), BlocksVars(tbs + Triples(g)) + GroupsVars(opts + Optionals(g)))
    ensures EachWellDesigned(opts + Optionals(g))
  {
    var around := BlocksVars(tbs) + GroupsVars(opts);
    CollectUnions(g.triplesBlock, g.subs, gous, around);
    CollectOptionals(g.triplesBlock, g.subs, around + GousVars(gous));
    BlocksVarsConcat(tbs, Triples(g));
    GroupsVarsConcat(opts, Optionals(g));
    assert around + CollectedVars(g.triplesBlock, g.subs) == BlocksVars(tbs + Triples(g)) + GroupsVars(opts + Optionals(g));
  }

  lemma {:induction false} AlternativeUniform(gous: seq<GroupOrUnion>, tbs: seq<TriplesBlock>, opts: seq<Group>, gs: seq<Group>)
    requires gous != [] && GousUniform(gous, BlocksVars(tbs) + GroupsVars(opts)) && EachWellDesigned(opts)
    requires gs <= Last(gous).alternatives && gs != []
    ensures PendingUniform(Last(gs), Init(gous), tbs, opts)
  {
    var around, all := BlocksVars(tbs) + GroupsVars(opts), Last(gous).alternatives;
    AllMember(all, around + GousVars(Init(gous)), |gs| - 1);
    GroupsVarsMember(all, |gs| - 1);
    GousWeaken(Init(gous), around + GroupsVars(all), around + GroupVars(Last(gs)));
  }

  lemma {:induction false} AllMember(gs: seq<Group>, outside: set<Variable>, i: nat)
    requires UniformAll(gs, outside) && i < |gs|
    ensures UniformlyWellDesigned(gs[i], outside)
  {
    if i < |gs| - 1 {
      AllMember(gs[..|gs| - 1], outside, i);
    }
  }

  lemma {:induction false} GroupsVarsMember(gs: seq<Group>, i: nat)
    requires i < |gs|
    ensures GroupVars(gs[i]) <= GroupsVars(gs)
  {
    if i < |gs| - 1 {
      GroupsVarsMember(gs[..|gs| - 1], i);
    }
  }

  // ---- collecting the entries of a group keeps the meaning of the call state ----

  lemma {:induction false} JoinUnionsWithin(graph: Graph, left: Bag, gous: seq<GroupOrUnion>, vars: set<Variable>)
    requires Within(left, vars)
    ensures Within(JoinUnions(graph, left, gous), vars + GousVars(gous))
  {
    if gous != [] {
      var gs := Last(gous).alternatives;
      JoinUnionsWithin(graph, left, Init(gous), vars);
      UnionDomain(graph, gs);
      JoinDomain(JoinUnions(graph, left, Init(gous)), EvalUnion(graph, gs), vars + GousVars(Init(gous)), GroupsVars(gs), {}, {});
    }
  }

  // Joining pending work with a sorted group sorts the group into it.
  lemma JoinSorted(graph: Graph, g: Group, gous: seq<GroupOrUnion>, tbs: seq<TriplesBlock>, outside: set<Variable>)
    requires UniformlyWellDesigned(g, outside) && BlocksVars(tbs) + GousVars(gous) <= outside
    ensures Same(Join(JoinUnions(graph, EvalBlocks(graph, tbs), gous), Eval(graph, g)),
                 AddOptionals(graph, JoinUnions(graph, EvalBlocks(graph, tbs + Triples(g)), gous + Unions(g)), Optionals(g)))
  {
    var b, t, bound := EvalBlocks(graph, tbs), EvalBlocks(graph, Triples(g)), BranchVars(g, false);
    var x, y := JoinUnions(graph, b, gous), JoinUnions(graph, t, Unions(g));
    SortEntries(graph, g.triplesBlock, g.subs, outside);
    JoinUnitLeft(t);
    SameJoinRight(x, Eval(graph, g), AddOptionals(graph, y, Optionals(g)));
    BgpDomain(graph, BlocksPatterns(tbs));
    JoinUnionsWithin(graph, b, gous, BlocksVars(tbs));
    SharedOptionals(g.triplesBlock, g.subs, outside);
    ShareFewer(Optionals(g), outside, BlocksVars(tbs) + GousVars(gous), bound);
    SortedBinds(graph, g);
    JoinUnderOptionals(graph, x, y, Optionals(g), BlocksVars(tbs) + GousVars(gous), bound);
    JoinBeforeUnions(graph, x, t, Unions(g));
    JoinPastUnions(graph, b, gous, t);
    BlocksConcat(graph, tbs, Triples(g));
    SameJoinUnions(graph, Join(x, t), JoinUnions(graph, Join(b, t), gous), Unions(g));
    JoinUnionsConcat(graph, Join(b, t), gous, Unions(g));
    SameAddOptionals(graph, Join(x, y), JoinUnions(graph, Join(b, t), gous + Unions(g)), Optionals(g));
  }

  lemma SortedBinds(graph: Graph, g: Group)
    ensures Binds(JoinUnions(graph, EvalBlocks(graph, Triples(g)), Unions(g)), BranchVars(g, false))
  {
    assert Binds([map[]], {});
    HoistedBinds(graph, [map[]], g.triplesBlock, g.subs, {});
    JoinUnitLeft(EvalBlocks(graph, Triples(g)));
    assert {} + BranchVars(g, false) == BranchVars(g, false);
  }

  lemma CollectedBinds(graph: Graph, g: Group, gous: seq<GroupOrUnion>, tbs: seq<TriplesBlock>)
    ensures Binds(JoinUnions(graph, EvalBlocks(graph, tbs + Triples(g)), gous + Unions(g)), BranchVars(g, false))
  {
    BgpDomain(graph, BlocksPatterns(tbs + Triples(g)));
    JoinUnionsBinds(graph, EvalBlocks(graph, tbs + Triples(g)), gous + Unions(g), BlocksVars(tbs + Triples(g)));
    SortedBranchVars(g.triplesBlock, g.subs);
    BlocksVarsConcat(tbs, Triples(g));
    GousBranchVarsConcat(gous, Unions(g));
  }

  lemma CollectInBranch(graph: Graph, g: Group, gous: seq<GroupOrUnion>, tbs: seq<TriplesBlock>, opts: seq<Group>)
    requires PendingUniform(g, gous, tbs, opts)
    ensures Same(PendingMeaning(graph, g, gous, tbs, opts),
                 AddOptionals(graph, JoinUnions(graph, EvalBlocks(graph, tbs + Triples(g)), gous + Unions(g)), opts + Optionals(g)))
  {
    var outside, bound := BlocksVars(tbs) + GroupsVars(opts) + GousVars(gous), BranchVars(g, false);
    var z := JoinUnions(graph, EvalBlocks(graph, tbs + Triples(g)), gous + Unions(g));
    JoinSorted(graph, g, gous, tbs, outside);
    SameAddOptionals(graph, Join(JoinUnions(graph, EvalBlocks(graph, tbs), gous), Eval(graph, g)),
                     AddOptionals(graph, z, Optionals(g)), opts);
    AddOptionalsConcat(graph, z, Optionals(g), opts);
    SharedOptionals(g.triplesBlock, g.subs, outside);
    ShareFewer(Optionals(g), outside, GroupsVars(opts), bound);
    CollectedBinds(graph, g, gous, tbs);
    OptionalRowsCommute(graph, z, Optionals(g), opts, bound);
  }

  // ---- distributing one union ----

  lemma {:induction false} AddOptionalsToSum(graph: Graph, a: Bag, b: Bag, opts: seq<Group>)
    ensures AddOptionals(graph, a + b, opts) == AddOptionals(graph, a, opts) + AddOptionals(graph, b, opts)
  {
    if opts != [] {
      AddOptionalsToSum(graph, a, b, opts[..|opts| - 1]);
      LeftJoinConcatLeft(AddOptionals(graph, a, opts[..|opts| - 1]), AddOptionals(graph, b, opts[..|opts| - 1]),
                         Eval(graph, opts[|opts| - 1]));
    }
  }

  lemma {:induction false} AddOptionalsToNothing(graph: Graph, opts: seq<Group>)
    ensures AddOptionals(graph, [], opts) == []
  {
    if opts != [] {
      AddOptionalsToNothing(graph, opts[..|opts| - 1]);
    }
  }

  lemma {:induction false} DistributeUnion(graph: Graph, gs: seq<Group>, gous: seq<GroupOrUnion>, tbs: seq<TriplesBlock>, opts: seq<Group>)
    ensures Same(AddOptionals(graph, Join(JoinUnions(graph, EvalBlocks(graph, tbs), gous), EvalUnion(graph, gs)), opts),
                 PendingMeanings(graph, gs, gous, tbs, opts))
  {
    var x := JoinUnions(graph, EvalBlocks(graph, tbs), gous);
    if gs == [] {
      JoinEmptyRight(x);
      AddOptionalsToNothing(graph, opts);
    } else {
      var rest, last := EvalUnion(graph, Init(gs)), Eval(graph, Last(gs));
      DistributeUnion(graph, Init(gs), gous, tbs, opts);
      JoinConcatRight(x, rest, last);
      SameAddOptionals(graph, Join(x, rest + last), Join(x, rest) + Join(x, last), opts);
      AddOptionalsToSum(graph, Join(x, rest), Join(x, last), opts);
    }
  }

  // ---- all branches of a call state ----

  ghost predicate PendingWellDesigned(g: Group, gous: seq<GroupOrUnion>, tbs: seq<TriplesBlock>, opts: seq<Group>) {
    forall b, c :: b in Branches(g) && c in GousBranches(gous) ==> PendingUniform(b, c, tbs, opts)
  }

  ghost function PendingSums(graph: Graph, bs: seq<Group>, cs: seq<seq<GroupOrUnion>>, tbs: seq<TriplesBlock>, opts: seq<Group>): Bag {
    if cs == [] then [] else PendingSums(graph, bs, cs[..|cs| - 1], tbs, opts) + PendingMeanings(graph, bs, cs[|cs| - 1], tbs, opts)
  }

  lemma {:induction false} SumsDistribute(graph: Graph, bs: seq<Group>, cs: seq<seq<GroupOrUnion>>,
                                          tbs: seq<TriplesBlock>, opts: seq<Group>)
    ensures Same(AddOptionals(graph, Join(JoinEach(graph, EvalBlocks(graph, tbs), cs), EvalUnion(graph, bs)), opts),
                 PendingSums(graph, bs, cs, tbs, opts))
  {
    if cs == [] {
      AddOptionalsToNothing(graph, opts);
    } else {
      var init, c := cs[..|cs| - 1], cs[|cs| - 1];
      var t, u := EvalBlocks(graph, tbs), EvalUnion(graph, bs);
      SumsDistribute(graph, bs, init, tbs, opts);
      JoinConcatLeft(JoinEach(graph, t, init), JoinUnions(graph, t, c), u);
      AddOptionalsToSum(graph, Join(JoinEach(graph, t, init), u), Join(JoinUnions(graph, t, c), u), opts);
      DistributeUnion(graph, bs, c, tbs, opts);
    }
  }

  // A call state means what its branches mean, well designed or not.
  lemma {:induction false} SplitPending(graph: Graph, g: Group, gous: seq<GroupOrUnion>, tbs: seq<TriplesBlock>, opts: seq<Group>)
    ensures Same(PendingMeaning(graph, g, gous, tbs, opts), PendingSums(graph, Branches(g), GousBranches(gous), tbs, opts))
  {
    var t := EvalBlocks(graph, tbs);
    var l, each, e, u := JoinUnions(graph, t, gous), JoinEach(graph, t, GousBranches(gous)), Eval(graph, g), EvalUnion(graph, Branches(g));
    ChoicesHaveSolutions(graph, t, gous);
    BranchesHaveSolutions(graph, g);
    SameJoinLeft(l, each, e);
    SameJoinRight(each, e, u);
    SameAddOptionals(graph, Join(l, e), Join(each, u), opts);
    SumsDistribute(graph, Branches(g), GousBranches(gous), tbs, opts);
  }

  // The branches `qs` of a group, each sorted into the same choice `c` of pending unions.
  lemma {:induction false} CollectInBranches(graph: Graph, g: Group, qs: seq<seq<Sub>>, c: seq<GroupOrUnion>,
                                             tbs: seq<TriplesBlock>, opts: seq<Group>)
    requires forall q :: q in qs ==> q in SubsBranches(g.subs) && PendingUniform(Group(g.triplesBlock, q), c, tbs, opts)
    ensures Same(PendingMeanings(graph, GroupsWith(g.triplesBlock, qs), c, tbs, opts),
                 AddOptionals(graph, JoinEach(graph, EvalBlocks(graph, tbs + Triples(g)), Chosen(c, qs)), opts + Optionals(g)))
  {
    hide PendingUniform, PendingMeaning, SubsBranches;
    var t, opts' := EvalBlocks(graph, tbs + Triples(g)), opts + Optionals(g);
    if qs == [] {
      AddOptionalsToNothing(graph, opts');
    } else {
      var init, q := qs[..|qs| - 1], qs[|qs| - 1];
      CollectInBranches(graph, g, init, c, tbs, opts);
      SubsBranchCollects(g.triplesBlock, g.subs, q);
      CollectInBranch(graph, Group(g.triplesBlock, q), c, tbs, opts);
      JoinEachLast(graph, t, Chosen(c, init), c + UnionsOf(q));
      AddOptionalsToSum(graph, JoinEach(graph, t, Chosen(c, init)), JoinUnions(graph, t, c + UnionsOf(q)), opts');
    }
  }

  lemma {:induction false} CollectInSums(graph: Graph, g: Group, cs: seq<seq<GroupOrUnion>>, tbs: seq<TriplesBlock>, opts: seq<Group>)
    requires forall b, c :: b in Branches(g) && c in cs ==> PendingUniform(b, c, tbs, opts)
    ensures Same(PendingSums(graph, Branches(g), cs, tbs, opts),
                 AddOptionals(graph, JoinEach(graph, EvalBlocks(graph, tbs + Triples(g)),
                                              AllChosen(cs, SubsBranches(g.subs))), opts + Optionals(g)))
  {
    hide PendingUniform, PendingMeanings, SubsBranches, GroupsWith, Chosen;
    var t, opts', qs := EvalBlocks(graph, tbs + Triples(g)), opts + Optionals(g), SubsBranches(g.subs);
    if cs == [] {
      AddOptionalsToNothing(graph, opts');
    } else {
      var init, c := cs[..|cs| - 1], cs[|cs| - 1];
      CollectInSums(graph, g, init, tbs, opts);
      forall q | q in qs ensures PendingUniform(Group(g.triplesBlock, q), c, tbs, opts) {
        GroupsWithMembers(g.triplesBlock, qs, Group(g.triplesBlock, q));
      }
      CollectInBranches(graph, g, qs, c, tbs, opts);
      JoinEachConcat(graph, t, AllChosen(init, qs), Chosen(c, qs));
      AddOptionalsToSum(graph, JoinEach(graph, t, AllChosen(init, qs)), JoinEach(graph, t, Chosen(c, qs)), opts');
    }
  }

  /** Collecting the entries of a group keeps the meaning of a call state whose branches are well designed. */
  lemma CollectKeepsMeaning(graph: Graph, g: Group, gous: seq<GroupOrUnion>, tbs: seq<TriplesBlock>, opts: seq<Group>)
    requires PendingWellDesigned(g, gous, tbs, opts)
    ensures Same(PendingMeaning(graph, g, gous, tbs, opts),
                 AddOptionals(graph, JoinUnions(graph, EvalBlocks(graph, tbs + Triples(g)), gous + Unions(g)), opts + Optionals(g)))
  {
    var t, gous' := EvalBlocks(graph, tbs + Triples(g)), gous + Unions(g);
    SplitPending(graph, g, gous, tbs, opts);
    CollectInSums(graph, g, GousBranches(gous), tbs, opts);
    ChoicesCollect(gous, g.subs);
    ChoicesHaveSolutions(graph, t, gous');
    SameAddOptionals(graph, JoinUnions(graph, t, gous'), JoinEach(graph, t, GousBranches(gous')), opts + Optionals(g));
  }

  // Every choice from the unions collected so far comes from one branch of the call state.
  lemma ChoiceComesFromBranch(g: Group, gous: seq<GroupOrUnion>, d: seq<GroupOrUnion>) returns (b: Group, c: seq<GroupOrUnion>)
    requires d in GousBranches(gous + Unions(g))
    ensures b in Branches(g) && c in GousBranches(gous) && d == c + Unions(b)
    ensures Triples(b) == Triples(g) && Optionals(b) == Optionals(g)
  {
    ChoicesCollect(gous, g.subs);
    var q;
    c, q := AllChosenMember(GousBranches(gous), SubsBranches(g.subs), d);
    b := Group(g.triplesBlock, q);
    GroupsWithMembers(g.triplesBlock, SubsBranches(g.subs), b);
    BranchCollects(g, b);
  }

  lemma OptionalsWellDesigned(g: Group, gous: seq<GroupOrUnion>, tbs: seq<TriplesBlock>, opts: seq<Group>)
    requires PendingWellDesigned(g, gous, tbs, opts) && gous + Unions(g) == []
    ensures EachWellDesigned(opts + Optionals(g))
  {
    assert [] in GousBranches(gous + Unions(g));
    var b, c := ChoiceComesFromBranch(g, gous, []);
    CollectKeepsUniform(b, c, tbs, opts);
  }

  // What is handed on to an alternative stays well designed.
  lemma AlternativeWellDesigned(g: Group, gous: seq<GroupOrUnion>, tbs: seq<TriplesBlock>, opts: seq<Group>, i: nat)
    requires PendingWellDesigned(g, gous, tbs, opts)
    requires gous + Unions(g) != [] && i < |Last(gous + Unions(g)).alternatives|
    ensures PendingWellDesigned(Last(gous + Unions(g)).alternatives[i], Init(gous + Unions(g)), tbs + Triples(g), opts + Optionals(g))
  {
    hide PendingUniform, Branches, GousBranches;
    var gous' := gous + Unions(g);
    forall b', e | b' in Branches(Last(gous').alternatives[i]) && e in GousBranches(Init(gous'))
      ensures PendingUniform(b', e, tbs + Triples(g), opts + Optionals(g))
    {
      ExtendChoice(gous', i, b', e);
      var b, c := ChoiceComesFromBranch(g, gous, e + [Single(b')]);
      CollectKeepsUniform(b, c, tbs, opts);
      AlternativeUniform(e + [Single(b')], tbs + Triples(g), opts + Optionals(g), [b']);
    }
  }

  lemma ExtendChoice(gous: seq<GroupOrUnion>, i: nat, b: Group, e: seq<GroupOrUnion>)
    requires gous != [] && i < |Last(gous).alternatives|
    requires b in Branches(Last(gous).alternatives[i]) && e in GousBranches(Init(gous))
    ensures e + [Single(b)] in GousBranches(gous)
  {
    var bs := AllBranches(Last(gous).alternatives);
    AllBranchesMember(Last(gous).alternatives, i, b);
    var k :| 0 <= k < |bs| && bs[k] == b;
    assert Singles(bs)[k] == Single(b);
    CrossMembers(GousBranches(Init(gous)), Singles(bs), e + [Single(b)]);
    assert Init(e + [Single(b)]) == e;
  }

  // ---- the theorem ----

  lemma {:induction false} EvalLeavesConcat(graph: Graph, a: seq<Leaf>, b: seq<Leaf>)
    ensures EvalLeaves(graph, a + b) == EvalLeaves(graph, a) + EvalLeaves(graph, b)
  {
    if b == [] {
      assert a + b == a;
    } else {
      assert (a + b)[..|a + b| - 1] == a + b[..|b| - 1];
      EvalLeavesConcat(graph, a, b[..|b| - 1]);
    }
  }

  /** The leaves of any call state mean what the call state means. */
  lemma {:induction false} ExpandPreservesMeaning(graph: Graph, g: Group, gous: seq<GroupOrUnion>, tbs: seq<TriplesBlock>, opts: seq<Group>)
    requires PendingWellDesigned(g, gous, tbs, opts)
    ensures Same(EvalLeaves(graph, Expand(g, gous, tbs, opts)), PendingMeaning(graph, g, gous, tbs, opts))
    decreases PendingSize(g, gous, opts), 0
  {
    hide PendingWellDesigned;
    var gous', tbs', opts' := gous + Unions(g), tbs + Triples(g), opts + Optionals(g);
    CollectedIsSmaller(g, gous, opts);
    CollectKeepsMeaning(graph, g, gous, tbs, opts);
    if gous' == [] {
      var leaf := Leaf(BlocksPatterns(tbs'), NormalizeAll(opts'));
      OptionalsWellDesigned(g, gous, tbs, opts);
      OptionalsPreserveMeaning(graph, EvalBlocks(graph, tbs'), opts');
      assert EvalLeaves(graph, [leaf]) == EvalLeaves(graph, []) + EvalLeaf(graph, leaf);
    } else {
      var gs := Last(gous').alternatives;
      forall i | 0 <= i < |gs| ensures PendingWellDesigned(gs[i], Init(gous'), tbs', opts') {
        AlternativeWellDesigned(g, gous, tbs, opts, i);
      }
      DistributeUnion(graph, gs, Init(gous'), tbs', opts');
      ExpandAllPreservesMeaning(graph, gs, Init(gous'), tbs', opts');
    }
  }

  lemma {:induction false} ExpandAllPreservesMeaning(graph: Graph, gs: seq<Group>, gous: seq<GroupOrUnion>,
                                                     tbs: seq<TriplesBlock>, opts: seq<Group>)
    requires forall i :: 0 <= i < |gs| ==> PendingWellDesigned(gs[i], gous, tbs, opts)
    ensures Same(EvalLeaves(graph, ExpandAll(gs, gous, tbs, opts)), PendingMeanings(graph, gs, gous, tbs, opts))
    decreases GroupsSize(gs) + GousSize(gous) + GroupsSize(opts), 1, gs
  {
    hide PendingWellDesigned;
    if gs != [] {
      assert PendingWellDesigned(gs[|gs| - 1], gous, tbs, opts);
      ExpandAllPreservesMeaning(graph, Init(gs), gous, tbs, opts);
      ExpandPreservesMeaning(graph, Last(gs), gous, tbs, opts);
      EvalLeavesConcat(graph, ExpandAll(Init(gs), gous, tbs, opts), Expand(Last(gs), gous, tbs, opts));
    }
  }

  lemma {:induction false} OptionalsPreserveMeaning(graph: Graph, left: Bag, opts: seq<Group>)
    requires EachWellDesigned(opts)
    ensures Same(EvalOptionals(graph, left, NormalizeAll(opts)), AddOptionals(graph, left, opts))
    decreases GroupsSize(opts), 2, opts
  {
    if opts != [] {
      var init, o := Init(opts), Last(opts);
      OptionalsPreserveMeaning(graph, left, init);
      NormalizePreservesMeaning(graph, o);
      var nfs, leaves := NormalizeAll(init), Normalize(o).leaves;
      assert (nfs + [Normalize(o)])[..|nfs|] == nfs;
      SameLeftJoinLeft(EvalOptionals(graph, left, nfs), AddOptionals(graph, left, init), EvalLeaves(graph, leaves));
      SameLeftJoinRight(AddOptionals(graph, left, init), EvalLeaves(graph, leaves), Eval(graph, o));
    }
  }

  /**
   Meaning preservation: for every graph and every well-designed pattern, the leaves of the normal
   form have exactly the solutions of the pattern, with the same cardinalities.
   */
  lemma {:induction false} NormalizePreservesMeaning(graph: Graph, g: Group)
    requires WellDesigned(g, {})
    ensures Same(EvalLeaves(graph, Normalize(g).leaves), Eval(graph, g))
    decreases GroupSize(g), 1, 0
  {
    WellDesignedByBranch(g, {});
    forall b, c | b in Branches(g) && c in GousBranches([]) ensures PendingUniform(b, c, [], []) {
      assert BlocksVars([]) == {} && GroupsVars([]) == {} && GousVars([]) == {};
    }
    ExpandPreservesMeaning(graph, g, [], [], []);
    JoinUnitLeft(Eval(graph, g));
  }

  // ---- the precondition is needed ----

  function Link(s: Variable, p: Term, o: Variable): TriplePattern {
    TriplePattern(Var(s), Fixed(p), Var(o))
  }

  function LinkBlock(s: Variable, p: Term, o: Variable): TriplesBlock {
    [SameSubject(Var(s), Property(Fixed(p), Var(o), []), [])]
  }

  /** { OPTIONAL { x p y } x q z }: the OPTIONAL shares x with what follows and nothing binds it before. */
  function OptionalFirst(x: Variable, p: Term, y: Variable, q: Term, z: Variable): Group {
    Group(None, [Sub(OptionalPattern(Group(Some(LinkBlock(x, p, y)), [])), Some(LinkBlock(x, q, z)))])
  }

  lemma LinkBlockPatterns(s: Variable, p: Term, o: Variable)
    ensures BlocksPatterns([LinkBlock(s, p, o)]) == [Link(s, p, o)]
  {
    var block, prop := LinkBlock(s, p, o), Property(Fixed(p), Var(o), []);
    assert ObjectPatterns(Var(s), Fixed(p), [Var(o)]) == ObjectPatterns(Var(s), Fixed(p), []) + [Link(s, p, o)];
    assert PropertyPatterns(Var(s), [prop]) == PropertyPatterns(Var(s), []) + ObjectPatterns(Var(s), Fixed(p), Objects(prop));
    assert BlockPatterns(block) == BlockPatterns([]) + PropertyPatterns(Var(s), Properties(block[0]));
    assert BlocksPatterns([block]) == BlocksPatterns([]) + BlockPatterns(block);
  }

  lemma LinkMatch(s: Variable, p: Term, o: Variable, t: Triple)
    requires s != o
    ensures MatchTriple(Link(s, p, o), t) == if t.p == p then [map[s := t.s, o := t.o]] else []
  {
    assert Binding(Link(s, p, o), t) == map[s := t.s, o := t.o];
  }

  lemma LinkSolutions(s: Variable, p: Term, o: Variable, graph: Graph, t: Triple)
    requires s != o && |graph| == 2 && graph[0].p != graph[1].p && t in graph && t.p == p
    ensures Solutions(graph, Link(s, p, o)) == [map[s := t.s, o := t.o]]
  {
    var tp := Link(s, p, o);
    LinkMatch(s, p, o, graph[0]);
    LinkMatch(s, p, o, graph[1]);
    assert Solutions(graph, tp) == MatchTriple(tp, graph[0]) + Solutions(graph[1..], tp);
    assert Solutions(graph[1..], tp) == MatchTriple(tp, graph[1]) + Solutions(graph[2..], tp);
    assert graph[2..] == [];
  }

  /**
   The rewriting joins x q z first and then finds nothing to extend, where the pattern itself binds
   x and y first and then fails to join: it gains a solution.
   */
  lemma {:induction false} OptionalFirstIsNotPreserved(x: Variable, p: Term, y: Variable, q: Term, z: Variable, graph: Graph)
    requires x != y && x != z && p != q
    requires |graph| == 2 && graph[0].p == p && graph[1].p == q && graph[0].s != graph[1].s
    ensures !WellDesigned(OptionalFirst(x, p, y, q, z), {})
    ensures Eval(graph, OptionalFirst(x, p, y, q, z)) == []
    ensures EvalLeaves(graph, Normalize(OptionalFirst(x, p, y, q, z)).leaves) == [map[x := graph[1].s, z := graph[1].o]]
  {
    var a, b := map[x := graph[0].s, y := graph[0].o], map[x := graph[1].s, z := graph[1].o];
    LinkSolutions(x, p, y, graph, graph[0]);
    LinkSolutions(x, q, z, graph, graph[1]);
    LinkEval(graph, x, p, y, a);
    LinkEval(graph, x, q, z, b);
    assert a[x] != b[x];
    OptionalFirstEval(graph, x, p, y, q, z, a, b);
    OptionalFirstRewritten(graph, x, p, y, q, z, a, b);
    OptionalFirstNotWellDesigned(x, p, y, q, z);
  }

  lemma OptionalFirstNotWellDesigned(x: Variable, p: Term, y: Variable, q: Term, z: Variable)
    ensures !WellDesigned(OptionalFirst(x, p, y, q, z), {})
  {
    var sub := OptionalFirst(x, p, y, q, z).subs[0];
    LinkBlockPatterns(x, p, y);
    LinkBlockPatterns(x, q, z);
    PatternsVarsOf(x, p, y);
    PatternsVarsOf(x, q, z);
    var subs := OptionalFirst(x, p, y, q, z).subs;
    var body := sub.pattern.group;
    assert GroupVars(body) == PrefixVars(body.triplesBlock, []) == BlockVars(body.triplesBlock);
    assert x in GroupVars(body) * ({} + BlockVars(sub.triplesBlock));
    assert subs[..|subs| - 1] == [];
    assert [] in SubsBranches([]);
    assert PrefixVars(None, []) == BlockVars(None) == {};
    assert !WellDesignedEntry(sub, {} + BlockVars(sub.triplesBlock), PrefixVars(None, []));
    assert !WellDesignedPrefix(None, subs, {});
  }

  lemma OptionalFirstEval(graph: Graph, x: Variable, p: Term, y: Variable, q: Term, z: Variable, a: Mapping, b: Mapping)
    requires EvalBgp(graph, [Link(x, p, y)]) == [a] && EvalBgp(graph, [Link(x, q, z)]) == [b] && !Compatible(a, b)
    ensures Eval(graph, OptionalFirst(x, p, y, q, z)) == []
  {
    var g := OptionalFirst(x, p, y, q, z);
    LinkBlockPatterns(x, p, y);
    LinkBlockPatterns(x, q, z);
    var body := g.subs[0].pattern.group;
    assert Eval(graph, body) == EvalPrefix(graph, body.triplesBlock, []) == [a];
    assert g.subs[..|g.subs| - 1] == [];
    assert EvalPrefix(graph, None, []) == [map[]];
    Singletons(map[], a, [a]);
    assert map[] + a == a;
    Singletons(a, b, [b]);
    assert EvalEntry(graph, [map[]], g.subs[0]) == Join(LeftJoin([map[]], [a]), [b]) == [];
    assert EvalPrefix(graph, None, g.subs) == EvalEntry(graph, EvalPrefix(graph, None, g.subs[..|g.subs| - 1]), g.subs[0]);
  }

  lemma OptionalFirstRewritten(graph: Graph, x: Variable, p: Term, y: Variable, q: Term, z: Variable, a: Mapping, b: Mapping)
    requires EvalBgp(graph, [Link(x, p, y)]) == [a] && EvalBgp(graph, [Link(x, q, z)]) == [b] && !Compatible(a, b)
    ensures EvalLeaves(graph, Normalize(OptionalFirst(x, p, y, q, z)).leaves) == [b]
  {
    var g := OptionalFirst(x, p, y, q, z);
    var body := g.subs[0].pattern.group;
    LinkBlockPatterns(x, p, y);
    LinkBlockPatterns(x, q, z);
    PlainGroup(body);
    OptionalFirstNormalForm(x, p, y, q, z);
    SingleLeaf(graph, Leaf([Link(x, p, y)], []));
    SingleLeaf(graph, Leaf([Link(x, q, z)], [Normalize(body)]));
    assert EvalOptionals(graph, [b], [Normalize(body)]) == LeftJoin(EvalOptionals(graph, [b], []), [a]);
    assert !Compatible(b, a);
    Singletons(b, a, [a]);
  }

  lemma OptionalFirstNormalForm(x: Variable, p: Term, y: Variable, q: Term, z: Variable)
    ensures
      var body := OptionalFirst(x, p, y, q, z).subs[0].pattern.group;
      Normalize(OptionalFirst(x, p, y, q, z)).leaves == [Leaf([Link(x, q, z)], [Normalize(body)])]
  {
    var g := OptionalFirst(x, p, y, q, z);
    var body := g.subs[0].pattern.group;
    LinkBlockPatterns(x, q, z);
    assert g.subs[..|g.subs| - 1] == [];
    assert TriplesOf(None, g.subs) == TriplesOf(None, []) + [LinkBlock(x, q, z)] == [LinkBlock(x, q, z)];
    assert OptionalsOf(g.subs) == OptionalsOf([]) + [body] == [body];
    assert UnionsOf(g.subs) == UnionsOf([]) + [] == [];
    assert [] + Triples(g) == [LinkBlock(x, q, z)] && [] + Optionals(g) == [body] && [] + Unions(g) == [];
    assert NormalizeAll([body]) == NormalizeAll([]) + [Normalize(body)] == [Normalize(body)];
  }

  // A group of one triples block is one leaf.
  lemma PlainGroup(g: Group)
    requires g.subs == [] && g.triplesBlock.Some?
    ensures Normalize(g).leaves == [Leaf(BlocksPatterns([g.triplesBlock.value]), [])]
  {
    assert [] + Triples(g) == [g.triplesBlock.value];
    assert [] + Unions(g) == [] && [] + Optionals(g) == [];
  }

  lemma PatternsVarsOf(s: Variable, p: Term, o: Variable)
    ensures PatternsVars([Link(s, p, o)]) == {s, o}
  {
    assert PatternsVars([Link(s, p, o)]) == PatternVars(Link(s, p, o)) + PatternsVars([]);
  }

  lemma LinkEval(graph: Graph, s: Variable, p: Term, o: Variable, m: Mapping)
    requires Solutions(graph, Link(s, p, o)) == [m]
    ensures EvalBgp(graph, [Link(s, p, o)]) == [m]
  {
    JoinUnitRight([m]);
  }

  lemma SingleLeaf(graph: Graph, leaf: Leaf)
    ensures EvalLeaves(graph, [leaf]) == EvalLeaf(graph, leaf)
  {
    assert EvalLeaves(graph, [leaf]) == EvalLeaves(graph, []) + EvalLeaf(graph, leaf);
  }

}
