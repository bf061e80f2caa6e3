/**
 Rewriting within one branch: on uniformly well-designed groups triples blocks and unions may be
 joined first and OPTIONALs added last, mapping for mapping and with the same cardinalities.
 */
module Rewriting {
  import opened Wrappers
  import opened Rdf
  import opened Bags
  import opened Patterns
  import opened Semantics
  import opened WellDesignedness

  // ---- the meaning of pending work: joins with unions, then left joins with optionals ----

  ghost function JoinUnions(graph: Graph, left: Bag, gous: seq<GroupOrUnion>): Bag {
    if gous == [] then left
    else Join(JoinUnions(graph, left, gous[..|gous| - 1]), EvalUnion(graph, gous[|gous| - 1].alternatives))
  }

  ghost function AddOptionals(graph: Graph, left: Bag, opts: seq<Group>): Bag {
    if opts == [] then left
    else LeftJoin(AddOptionals(graph, left, opts[..|opts| - 1]), Eval(graph, opts[|opts| - 1]))
  }

  ghost function EvalBlocks(graph: Graph, tbs: seq<TriplesBlock>): Bag {
    EvalBgp(graph, BlocksPatterns(tbs))
  }

  // What a group means once its entries are sorted into triples, unions and optionals.
  ghost function Hoisted(graph: Graph, left: Bag, first: Option<TriplesBlock>, subs: seq<Sub>): Bag {
    AddOptionals(graph, JoinUnions(graph, Join(left, EvalBlocks(graph, TriplesOf(first, subs))), UnionsOf(subs)), OptionalsOf(subs))
  }

  // Each of the optionals shares only `bound` variables with `vars`.
  ghost predicate ShareOnly(opts: seq<Group>, vars: set<Variable>, bound: set<Variable>) {
    forall i :: 0 <= i < |opts| ==> GroupVars(opts[i]) * vars <= bound
  }

  // ---- congruence ----

  lemma {:induction false} SameJoinUnions(graph: Graph, a: Bag, b: Bag, gous: seq<GroupOrUnion>)
    requires Same(a, b)
    ensures Same(JoinUnions(graph, a, gous), JoinUnions(graph, b, gous))
  {
    if gous != [] {
      var init := gous[..|gous| - 1];
      SameJoinUnions(graph, a, b, init);
      SameJoinLeft(JoinUnions(graph, a, init), JoinUnions(graph, b, init), EvalUnion(graph, gous[|gous| - 1].alternatives));
    }
  }

  lemma {:induction false} SameAddOptionals(graph: Graph, a: Bag, b: Bag, opts: seq<Group>)
    requires Same(a, b)
    ensures Same(AddOptionals(graph, a, opts), AddOptionals(graph, b, opts))
  {
    if opts != [] {
      var init := opts[..|opts| - 1];
      SameAddOptionals(graph, a, b, init);
      SameLeftJoinLeft(AddOptionals(graph, a, init), AddOptionals(graph, b, init), Eval(graph, opts[|opts| - 1]));
    }
  }

  lemma {:induction false} AddOptionalsConcat(graph: Graph, left: Bag, a: seq<Group>, b: seq<Group>)
    ensures AddOptionals(graph, left, a + b) == AddOptionals(graph, AddOptionals(graph, left, a), b)
  {
    if b == [] {
      assert a + b == a;
    } else {
      assert (a + b)[..|a + b| - 1] == a + b[..|b| - 1];
      AddOptionalsConcat(graph, left, a, b[..|b| - 1]);
    }
  }

  lemma {:induction false} JoinUnionsConcat(graph: Graph, left: Bag, a: seq<GroupOrUnion>, b: seq<GroupOrUnion>)
    ensures JoinUnions(graph, left, a + b) == JoinUnions(graph, JoinUnions(graph, left, a), b)
  {
    if b == [] {
      assert a + b == a;
    } else {
      assert (a + b)[..|a + b| - 1] == a + b[..|b| - 1];
      JoinUnionsConcat(graph, left, a, b[..|b| - 1]);
    }
  }

  lemma {:induction false} BgpConcat(graph: Graph, a: seq<TriplePattern>, b: seq<TriplePattern>)
    ensures EvalBgp(graph, a + b) == Join(EvalBgp(graph, a), EvalBgp(graph, b))
  {
    if a == [] {
      assert a + b == b;
      JoinUnitLeft(EvalBgp(graph, b));
    } else {
      assert (a + b)[1..] == a[1..] + b;
      BgpConcat(graph, a[1..], b);
      JoinAssoc(Solutions(graph, a[0]), EvalBgp(graph, a[1..]), EvalBgp(graph, b));
    }
  }

  lemma BlocksConcat(graph: Graph, a: seq<TriplesBlock>, b: seq<TriplesBlock>)
    ensures EvalBlocks(graph, a + b) == Join(EvalBlocks(graph, a), EvalBlocks(graph, b))
  {
    BlocksPatternsConcat(a, b);
    BgpConcat(graph, BlocksPatterns(a), BlocksPatterns(b));
  }

  // A join after a row of unions can be done before them, and the left operand pulled out.
  lemma {:induction false} JoinPastUnions(graph: Graph, left: Bag, gous: seq<GroupOrUnion>, right: Bag)
    ensures Same(Join(JoinUnions(graph, left, gous), right), JoinUnions(graph, Join(left, right), gous))
  {
    if gous != [] {
      var init, u := gous[..|gous| - 1], EvalUnion(graph, gous[|gous| - 1].alternatives);
      var l := JoinUnions(graph, left, init);
      JoinAssoc(l, u, right);
      JoinCommutes(u, right);
      SameJoinRight(l, Join(u, right), Join(right, u));
      JoinAssoc(l, right, u);
      JoinPastUnions(graph, left, init, right);
      SameJoinLeft(Join(l, right), JoinUnions(graph, Join(left, right), init), u);
    }
  }

  lemma {:induction false} JoinBeforeUnions(graph: Graph, x: Bag, left: Bag, gous: seq<GroupOrUnion>)
    ensures Join(x, JoinUnions(graph, left, gous)) == JoinUnions(graph, Join(x, left), gous)
  {
    if gous != [] {
      var init, u := gous[..|gous| - 1], EvalUnion(graph, gous[|gous| - 1].alternatives);
      JoinAssoc(x, JoinUnions(graph, left, init), u);
      JoinBeforeUnions(graph, x, left, init);
    }
  }

  // ---- domains of pending work ----

  lemma {:induction false} JoinUnionsBinds(graph: Graph, left: Bag, gous: seq<GroupOrUnion>, bound: set<Variable>)
    requires Binds(left, bound)
    ensures Binds(JoinUnions(graph, left, gous), bound + GousBranchVars(gous))
  {
    if gous != [] {
      var init, gs := gous[..|gous| - 1], gous[|gous| - 1].alternatives;
      JoinUnionsBinds(graph, left, init, bound);
      UnionDomain(graph, gs);
      var l := JoinUnions(graph, left, init);
      AllWithin(l);
      JoinDomain(l, EvalUnion(graph, gs), AllKeys(l), GroupsVars(gs), bound + GousBranchVars(init), CommonBranchVars(gs, false));
    }
  }

  ghost function AllKeys(bag: Bag): set<Variable> {
    if bag == [] then {} else bag[0].Keys + AllKeys(bag[1..])
  }

  lemma {:induction false} AllWithin(bag: Bag)
    ensures Within(bag, AllKeys(bag))
  {
    if bag != [] {
      AllWithin(bag[1..]);
      assert bag == [bag[0]] + bag[1..];
    }
  }

  ghost function GousBranchVars(gous: seq<GroupOrUnion>): set<Variable> {
    if gous == [] then {} else GousBranchVars(gous[..|gous| - 1]) + CommonBranchVars(gous[|gous| - 1].alternatives, false)
  }

  lemma {:induction false} AddOptionalsBinds(graph: Graph, left: Bag, opts: seq<Group>, bound: set<Variable>)
    requires Binds(left, bound)
    ensures Binds(AddOptionals(graph, left, opts), bound)
  {
    if opts != [] {
      var init, o := opts[..|opts| - 1], opts[|opts| - 1];
      AddOptionalsBinds(graph, left, init, bound);
      EvalDomain(graph, o);
      var l := AddOptionals(graph, left, init);
      AllWithin(l);
      LeftJoinDomain(l, Eval(graph, o), AllKeys(l), GroupVars(o), bound);
    }
  }

  lemma {:induction false} GousBranchVarsConcat(a: seq<GroupOrUnion>, b: seq<GroupOrUnion>)
    ensures GousBranchVars(a + b) == GousBranchVars(a) + GousBranchVars(b)
  {
    if b == [] {
      assert a + b == a;
    } else {
      assert (a + b)[..|a + b| - 1] == a + b[..|b| - 1];
      GousBranchVarsConcat(a, b[..|b| - 1]);
    }
  }

  lemma EntryBranchVars(sub: Sub)
    ensures SubBranchVars(sub, false) == GousBranchVars(UnionsIn(sub)) + BlockVars(sub.triplesBlock)
  {
    match sub.pattern {
      case UnionPattern(gou) =>
        assert GousBranchVars([gou]) == GousBranchVars([]) + CommonBranchVars(gou.alternatives, false);
      case OptionalPattern(_) =>
    }
  }

  // Sorting the entries of a group loses none of its certain variables.
  lemma {:induction false} SortedBranchVars(first: Option<TriplesBlock>, subs: seq<Sub>)
    ensures PrefixBranchVars(first, subs, false) == BlocksVars(TriplesOf(first, subs)) + GousBranchVars(UnionsOf(subs))
  {
    if subs != [] {
      var init, last := subs[..|subs| - 1], subs[|subs| - 1];
      SortedBranchVars(first, init);
      BlocksVarsConcat(TriplesOf(first, init), BlockList(last.triplesBlock));
      GousBranchVarsConcat(UnionsOf(init), UnionsIn(last));
      EntryBranchVars(last);
    }
  }

  lemma HoistedBinds(graph: Graph, left: Bag, first: Option<TriplesBlock>, subs: seq<Sub>, bound: set<Variable>)
    requires Binds(left, bound)
    ensures Binds(JoinUnions(graph, Join(left, EvalBlocks(graph, TriplesOf(first, subs))), UnionsOf(subs)),
                  bound + PrefixBranchVars(first, subs, false))
  {
    var tps := BlocksPatterns(TriplesOf(first, subs));
    BgpDomain(graph, tps);
    AllWithin(left);
    JoinDomain(left, EvalBgp(graph, tps), AllKeys(left), PatternsVars(tps), bound, PatternsVars(tps));
    JoinUnionsBinds(graph, Join(left, EvalBgp(graph, tps)), UnionsOf(subs), bound + PatternsVars(tps));
    SortedBranchVars(first, subs);
    assert bound + PrefixBranchVars(first, subs, false) == (bound + PatternsVars(tps)) + GousBranchVars(UnionsOf(subs));
  }

  // ---- moving joins and optionals past optionals ----

  /** A join after a row of OPTIONALs can be done before them. */
  lemma {:induction false} JoinPastOptionals(graph: Graph, left: Bag, opts: seq<Group>, right: Bag, vr: set<Variable>, bound: set<Variable>)
    requires Binds(left, bound) && Within(right, vr) && ShareOnly(opts, vr, bound)
    ensures Same(Join(AddOptionals(graph, left, opts), right), AddOptionals(graph, Join(left, right), opts))
  {
    if opts != [] {
      var init, o := opts[..|opts| - 1], opts[|opts| - 1];
      var l := AddOptionals(graph, left, init);
      assert ShareOnly(init, vr, bound);
      assert GroupVars(opts[|opts| - 1]) * vr <= bound;
      JoinPastOptionals(graph, left, init, right, vr, bound);
      AddOptionalsBinds(graph, left, init, bound);
      EvalDomain(graph, o);
      LeftJoinJoin(l, right, Eval(graph, o), vr, GroupVars(o), bound);
      SameLeftJoinLeft(Join(l, right), AddOptionals(graph, Join(left, right), init), Eval(graph, o));
    }
  }

  /** Joining from the left goes under a row of OPTIONALs. */
  lemma {:induction false} JoinUnderOptionals(graph: Graph, x: Bag, left: Bag, opts: seq<Group>, vx: set<Variable>, bound: set<Variable>)
    requires Within(x, vx) && Binds(left, bound) && ShareOnly(opts, vx, bound)
    ensures Join(x, AddOptionals(graph, left, opts)) == AddOptionals(graph, Join(x, left), opts)
  {
    if opts != [] {
      var init, o := opts[..|opts| - 1], opts[|opts| - 1];
      assert ShareOnly(init, vx, bound);
      assert GroupVars(opts[|opts| - 1]) * vx <= bound;
      JoinUnderOptionals(graph, x, left, init, vx, bound);
      AddOptionalsBinds(graph, left, init, bound);
      EvalDomain(graph, o);
      JoinLeftJoin(x, AddOptionals(graph, left, init), Eval(graph, o), vx, GroupVars(o), bound);
    }
  }

  lemma {:induction false} OptionalPastOptionals(graph: Graph, left: Bag, opts: seq<Group>, o: Group, bound: set<Variable>)
    requires Binds(left, bound) && ShareOnly(opts, GroupVars(o), bound)
    ensures Same(LeftJoin(AddOptionals(graph, left, opts), Eval(graph, o)), AddOptionals(graph, LeftJoin(left, Eval(graph, o)), opts))
  {
    if opts != [] {
      var init, p := opts[..|opts| - 1], opts[|opts| - 1];
      var l, eo, ep := AddOptionals(graph, left, init), Eval(graph, o), Eval(graph, p);
      assert ShareOnly(init, GroupVars(o), bound);
      assert GroupVars(opts[|opts| - 1]) * GroupVars(o) <= bound;
      OptionalPastOptionals(graph, left, init, o, bound);
      AddOptionalsBinds(graph, left, init, bound);
      EvalDomain(graph, o);
      EvalDomain(graph, p);
      OptionalsCommute(l, ep, eo, GroupVars(p), GroupVars(o), bound);
      SameLeftJoinLeft(LeftJoin(l, eo), AddOptionals(graph, LeftJoin(left, eo), init), ep);
    }
  }

  /** Two rows of OPTIONALs swap when the left side binds every variable they share. */
  lemma {:induction false} OptionalRowsCommute(graph: Graph, left: Bag, a: seq<Group>, b: seq<Group>, bound: set<Variable>)
    requires Binds(left, bound) && ShareOnly(a, GroupsVars(b), bound)
    ensures Same(AddOptionals(graph, left, a + b), AddOptionals(graph, left, b + a))
  {
    AddOptionalsConcat(graph, left, a, b);
    AddOptionalsConcat(graph, left, b, a);
    if b != [] {
      var init, o := b[..|b| - 1], b[|b| - 1];
      assert ShareOnly(a, GroupsVars(init), bound);
      assert ShareOnly(a, GroupVars(o), bound);
      OptionalRowsCommute(graph, left, a, init, bound);
      AddOptionalsConcat(graph, left, a, init);
      AddOptionalsConcat(graph, left, init, a);
      AddOptionalsBinds(graph, left, init, bound);
      var l := AddOptionals(graph, left, init);
      SameLeftJoinLeft(AddOptionals(graph, AddOptionals(graph, left, a), init), AddOptionals(graph, l, a), Eval(graph, o));
      OptionalPastOptionals(graph, l, a, o, bound);
    }
  }

  // ---- sorting the entries of one group ----

  lemma {:induction false} SharedOptionals(first: Option<TriplesBlock>, subs: seq<Sub>, outside: set<Variable>)
    requires UniformPrefix(first, subs, outside)
    ensures ShareOnly(OptionalsOf(subs), outside, PrefixBranchVars(first, subs, false))
  {
    if subs != [] {
      var init, last := subs[..|subs| - 1], subs[|subs| - 1];
      SharedOptionals(first, init, outside + SubVars(last));
      OutsideIsBoundPrefix(first, init, outside + SubVars(last));
      var opts, initOpts := OptionalsOf(subs), OptionalsOf(init);
      forall i | 0 <= i < |opts| ensures GroupVars(opts[i]) * outside <= PrefixBranchVars(first, subs, false) {
        if i < |initOpts| {
          assert opts[i] == initOpts[i];
          assert GroupVars(initOpts[i]) * (outside + SubVars(last)) <= PrefixBranchVars(first, init, false);
        } else {
          var o := last.pattern.group;
          forall v | v in GroupVars(o) && v in outside ensures v in PrefixBranchVars(first, subs, false) {
            assert v in GroupVars(o) * (outside + BlockVars(last.triplesBlock));
            assert v in PrefixBranchVars(first, init, true) * (outside + SubVars(last));
          }
        }
      }
    }
  }

  /**
   Within a well-designed group all triples blocks may be joined first, then all unions, and the
   OPTIONALs added last.
   */
  lemma {:induction false} SortEntries(graph: Graph, first: Option<TriplesBlock>, subs: seq<Sub>, outside: set<Variable>)
    requires UniformPrefix(first, subs, outside)
    ensures Same(EvalPrefix(graph, first, subs), Hoisted(graph, [map[]], first, subs))
  {
    if subs == [] {
      JoinUnitLeft(EvalBlocks(graph, BlockList(first)));
    } else {
      var init, last := subs[..|subs| - 1], subs[|subs| - 1];
      SortEntries(graph, first, init, outside + SubVars(last));
      SameEntry(graph, EvalPrefix(graph, first, init), Hoisted(graph, [map[]], first, init), last);
      SortLast(graph, first, subs, outside);
    }
  }

  lemma {:induction false} SameEntry(graph: Graph, a: Bag, b: Bag, sub: Sub)
    requires Same(a, b)
    ensures Same(EvalEntry(graph, a, sub), EvalEntry(graph, b, sub))
  {
    var block := EvalBlock(graph, sub.triplesBlock);
    match sub.pattern {
      case UnionPattern(gou) =>
        var u := EvalUnion(graph, gou.alternatives);
        SameJoinLeft(a, b, u);
        SameJoinLeft(Join(a, u), Join(b, u), block);
      case OptionalPattern(group) =>
        var o := Eval(graph, group);
        SameLeftJoinLeft(a, b, o);
        SameJoinLeft(LeftJoin(a, o), LeftJoin(b, o), block);
    }
  }

  // One more entry behind a sorted prefix is sorted into it.
  lemma SortLast(graph: Graph, first: Option<TriplesBlock>, subs: seq<Sub>, outside: set<Variable>)
    requires subs != [] && UniformPrefix(first, subs, outside)
    ensures Same(EvalEntry(graph, Hoisted(graph, [map[]], first, subs[..|subs| - 1]), subs[|subs| - 1]),
                 Hoisted(graph, [map[]], first, subs))
  {
    var init, last := subs[..|subs| - 1], subs[|subs| - 1];
    var t := Join([map[]], EvalBlocks(graph, TriplesOf(first, init)));
    var bound := SharedPrefix(graph, first, subs, outside);
    SortSub(graph, t, UnionsOf(init), OptionalsOf(init), last, outside + SubVars(last), bound);
    HoistedStep(graph, first, subs);
  }

  lemma {:induction false} HoistedStep(graph: Graph, first: Option<TriplesBlock>, subs: seq<Sub>)
    requires subs != []
    ensures
      var init, last := subs[..|subs| - 1], subs[|subs| - 1];
      var t := Join([map[]], EvalBlocks(graph, TriplesOf(first, init)));
      Hoisted(graph, [map[]], first, subs) ==
      AddOptionals(graph, JoinUnions(graph, Join(t, EvalBlock(graph, last.triplesBlock)), UnionsOf(init) + UnionsIn(last)),
                   OptionalsOf(init) + OptionalsIn(last))
  {
    var init, last := subs[..|subs| - 1], subs[|subs| - 1];
    BlocksConcat(graph, TriplesOf(first, init), BlockList(last.triplesBlock));
    JoinAssoc([map[]], EvalBlocks(graph, TriplesOf(first, init)), EvalBlock(graph, last.triplesBlock));
  }

  // What the prefix in front of the last entry binds, and shares with the rest.
  lemma SharedPrefix(graph: Graph, first: Option<TriplesBlock>, subs: seq<Sub>, outside: set<Variable>)
    returns (bound: set<Variable>)
    requires subs != [] && UniformPrefix(first, subs, outside)
    ensures
      var init, last := subs[..|subs| - 1], subs[|subs| - 1];
      && Binds(JoinUnions(graph, Join([map[]], EvalBlocks(graph, TriplesOf(first, init))), UnionsOf(init)), bound)
      && ShareOnly(OptionalsOf(init), outside + SubVars(last), bound)
      && (last.pattern.OptionalPattern? ==> GroupVars(last.pattern.group) * BlockVars(last.triplesBlock) <= bound)
  {
    var init, last := subs[..|subs| - 1], subs[|subs| - 1];
    bound := PrefixBranchVars(first, init, false);
    assert Binds([map[]], {});
    HoistedBinds(graph, [map[]], first, init, {});
    assert {} + bound == bound;
    SharedOptionals(first, init, outside + SubVars(last));
    OutsideIsBoundPrefix(first, init, outside + SubVars(last));
    if last.pattern.OptionalPattern? {
      forall v | v in GroupVars(last.pattern.group) && v in BlockVars(last.triplesBlock) ensures v in bound {
        assert v in GroupVars(last.pattern.group) * (outside + BlockVars(last.triplesBlock));
        assert v in PrefixBranchVars(first, init, true) * (outside + SubVars(last));
      }
    }
  }

  lemma SortSub(graph: Graph, t: Bag, gous: seq<GroupOrUnion>, opts: seq<Group>, sub: Sub, vars: set<Variable>, bound: set<Variable>)
    requires Binds(JoinUnions(graph, t, gous), bound) && ShareOnly(opts, vars, bound) && SubVars(sub) <= vars
    requires sub.pattern.OptionalPattern? ==> GroupVars(sub.pattern.group) * BlockVars(sub.triplesBlock) <= bound
    ensures Same(EvalEntry(graph, AddOptionals(graph, JoinUnions(graph, t, gous), opts), sub),
                 AddOptionals(graph, JoinUnions(graph, Join(t, EvalBlock(graph, sub.triplesBlock)),
                                                gous + UnionsIn(sub)), opts + OptionalsIn(sub)))
  {
    match sub.pattern {
      case UnionPattern(gou) =>
        SortUnion(graph, t, gous, opts, gou, sub.triplesBlock, vars, bound);
        assert opts + [] == opts;
      case OptionalPattern(group) =>
        ShareFewer(opts, vars, BlockVars(sub.triplesBlock), bound);
        SortOptional(graph, t, gous, opts, group, sub.triplesBlock, bound);
        assert gous + [] == gous;
    }
  }

  lemma SortUnion(graph: Graph, t: Bag, gous: seq<GroupOrUnion>, opts: seq<Group>, gou: GroupOrUnion,
                  block: Option<TriplesBlock>, vars: set<Variable>, bound: set<Variable>)
    requires Binds(JoinUnions(graph, t, gous), bound) && ShareOnly(opts, vars, bound)
    requires GroupsVars(gou.alternatives) + BlockVars(block) <= vars
    ensures Same(EvalEntry(graph, AddOptionals(graph, JoinUnions(graph, t, gous), opts), Sub(UnionPattern(gou), block)),
                 AddOptionals(graph, JoinUnions(graph, Join(t, EvalBlock(graph, block)), gous + [gou]), opts))
  {
    var l, u := JoinUnions(graph, t, gous), EvalUnion(graph, gou.alternatives);
    UnionDomain(graph, gou.alternatives);
    ShareFewer(opts, vars, GroupsVars(gou.alternatives), bound);
    ShareFewer(opts, vars, BlockVars(block), bound);
    JoinPastOptionals(graph, l, opts, u, GroupsVars(gou.alternatives), bound);
    assert (gous + [gou])[..|gous|] == gous;
    assert JoinUnions(graph, t, gous + [gou]) == Join(l, u);
    JoinKeepsBound(l, u, bound);
    SortBlock(graph, t, gous + [gou], opts, Join(AddOptionals(graph, l, opts), u), block, bound);
  }

  lemma SortOptional(graph: Graph, t: Bag, gous: seq<GroupOrUnion>, opts: seq<Group>, group: Group,
                     block: Option<TriplesBlock>, bound: set<Variable>)
    requires Binds(JoinUnions(graph, t, gous), bound)
    requires ShareOnly(opts, BlockVars(block), bound) && GroupVars(group) * BlockVars(block) <= bound
    ensures Same(EvalEntry(graph, AddOptionals(graph, JoinUnions(graph, t, gous), opts), Sub(OptionalPattern(group), block)),
                 AddOptionals(graph, JoinUnions(graph, Join(t, EvalBlock(graph, block)), gous), opts + [group]))
  {
    var l := JoinUnions(graph, t, gous);
    assert (opts + [group])[..|opts|] == opts;
    assert AddOptionals(graph, l, opts + [group]) == LeftJoin(AddOptionals(graph, l, opts), Eval(graph, group));
    SortBlock(graph, t, gous, opts + [group], LeftJoin(AddOptionals(graph, l, opts), Eval(graph, group)), block, bound);
  }

  lemma ShareFewer(opts: seq<Group>, vars: set<Variable>, fewer: set<Variable>, bound: set<Variable>)
    requires ShareOnly(opts, vars, bound) && fewer <= vars
    ensures ShareOnly(opts, fewer, bound)
  {
    forall i | 0 <= i < |opts| ensures GroupVars(opts[i]) * fewer <= bound {
      assert GroupVars(opts[i]) * vars <= bound;
    }
  }

  lemma JoinKeepsBound(a: Bag, b: Bag, bound: set<Variable>)
    requires Binds(a, bound)
    ensures Binds(Join(a, b), bound)
  {
    AllWithin(a);
    AllWithin(b);
    JoinDomain(a, b, AllKeys(a), AllKeys(b), bound, {});
  }

  // The triples block behind an entry joins the blocks in front.
  lemma SortBlock(graph: Graph, t: Bag, gous: seq<GroupOrUnion>, opts: seq<Group>, left: Bag,
                  block: Option<TriplesBlock>, bound: set<Variable>)
    requires Same(left, AddOptionals(graph, JoinUnions(graph, t, gous), opts))
    requires Binds(JoinUnions(graph, t, gous), bound) && ShareOnly(opts, BlockVars(block), bound)
    ensures Same(Join(left, EvalBlock(graph, block)),
                 AddOptionals(graph, JoinUnions(graph, Join(t, EvalBlock(graph, block)), gous), opts))
  {
    var b, l := EvalBlock(graph, block), JoinUnions(graph, t, gous);
    BgpDomain(graph, BlocksPatterns(BlockList(block)));
    SameJoinLeft(left, AddOptionals(graph, l, opts), b);
    JoinPastOptionals(graph, l, opts, b, BlockVars(block), bound);
    JoinPastUnions(graph, t, gous, b);
    SameAddOptionals(graph, Join(l, b), JoinUnions(graph, Join(t, b), gous), opts);
  }

}
