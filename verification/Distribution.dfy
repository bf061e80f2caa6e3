/**
 Without any precondition, a group has the solutions of its union-free branches taken together, and
 so has a join with a row of unions.
 */
module Distribution {
  import opened Wrappers
  import opened Bags
  import opened Patterns
  import opened Semantics
  import opened UnionFree
  import opened Rewriting

  // ---- entries distribute over sums on their left ----

  lemma EntryOfSum(graph: Graph, a: Bag, b: Bag, sub: Sub)
    ensures EvalEntry(graph, a + b, sub) == EvalEntry(graph, a, sub) + EvalEntry(graph, b, sub)
  {
    var block := EvalBlock(graph, sub.triplesBlock);
    match sub.pattern {
      case UnionPattern(gou) =>
        var u := EvalUnion(graph, gou.alternatives);
        JoinConcatLeft(a, b, u);
        JoinConcatLeft(Join(a, u), Join(b, u), block);
      case OptionalPattern(group) =>
        var o := Eval(graph, group);
        LeftJoinConcatLeft(a, b, o);
        JoinConcatLeft(LeftJoin(a, o), LeftJoin(b, o), block);
    }
  }

  // ---- a group and its branches ----

  ghost function EvalPrefixes(graph: Graph, first: Option<TriplesBlock>, qs: seq<seq<Sub>>): Bag {
    if qs == [] then []
    else EvalPrefixes(graph, first, qs[..|qs| - 1]) + EvalPrefix(graph, first, qs[|qs| - 1])
  }

  ghost function EvalEntries(graph: Graph, left: Bag, subs: seq<Sub>): Bag {
    if subs == [] then [] else EvalEntries(graph, left, subs[..|subs| - 1]) + EvalEntry(graph, left, subs[|subs| - 1])
  }

  lemma {:induction false} EvalUnionConcat(graph: Graph, a: seq<Group>, b: seq<Group>)
    ensures EvalUnion(graph, a + b) == EvalUnion(graph, a) + EvalUnion(graph, b)
  {
    if b == [] {
      assert a + b == a;
    } else {
      assert (a + b)[..|a + b| - 1] == a + b[..|b| - 1];
      EvalUnionConcat(graph, a, b[..|b| - 1]);
    }
  }

  lemma {:induction false} GroupsWithEval(graph: Graph, first: Option<TriplesBlock>, qs: seq<seq<Sub>>)
    ensures EvalUnion(graph, GroupsWith(first, qs)) == EvalPrefixes(graph, first, qs)
  {
    if qs != [] {
      GroupsWithEval(graph, first, qs[..|qs| - 1]);
      assert GroupsWith(first, qs)[..|qs| - 1] == GroupsWith(first, qs[..|qs| - 1]);
    }
  }

  lemma {:induction false} EvalPrefixesConcat(graph: Graph, first: Option<TriplesBlock>, a: seq<seq<Sub>>, b: seq<seq<Sub>>)
    ensures EvalPrefixes(graph, first, a + b) == EvalPrefixes(graph, first, a) + EvalPrefixes(graph, first, b)
  {
    hide EvalPrefix;
    if b == [] {
      assert a + b == a;
    } else {
      assert (a + b)[..|a + b| - 1] == a + b[..|b| - 1];
      EvalPrefixesConcat(graph, first, a, b[..|b| - 1]);
    }
  }

  lemma {:induction false} ExtendedEval(graph: Graph, first: Option<TriplesBlock>, p: seq<Sub>, subs: seq<Sub>)
    ensures EvalPrefixes(graph, first, Extended(p, subs)) == EvalEntries(graph, EvalPrefix(graph, first, p), subs)
  {
    if subs != [] {
      ExtendedEval(graph, first, p, subs[..|subs| - 1]);
      var q := p + [subs[|subs| - 1]];
      assert q[..|q| - 1] == p;
      assert Extended(p, subs)[..|subs| - 1] == Extended(p, subs[..|subs| - 1]);
    }
  }

  lemma {:induction false} SubsWithEval(graph: Graph, left: Bag, bs: seq<Group>, block: Option<TriplesBlock>)
    ensures Same(Join(Join(left, EvalUnion(graph, bs)), EvalBlock(graph, block)), EvalEntries(graph, left, SubsWith(bs, block)))
  {
    if bs == [] {
      JoinEmptyRight(left);
    } else {
      var init, b := bs[..|bs| - 1], bs[|bs| - 1];
      var tail, e := EvalBlock(graph, block), Eval(graph, b);
      SubsWithEval(graph, left, init, block);
      JoinConcatRight(left, EvalUnion(graph, init), e);
      SameJoinLeft(Join(left, EvalUnion(graph, init) + e), Join(left, EvalUnion(graph, init)) + Join(left, e), tail);
      JoinConcatLeft(Join(left, EvalUnion(graph, init)), Join(left, e), tail);
      assert SubsWith(bs, block)[..|bs| - 1] == SubsWith(init, block);
      SingleEntry(graph, left, b, block);
    }
  }

  lemma SingleUnion(graph: Graph, b: Group)
    ensures EvalUnion(graph, [b]) == Eval(graph, b)
  {
    assert EvalUnion(graph, [b]) == EvalUnion(graph, [b][..0]) + Eval(graph, b);
  }

  lemma {:induction false} SingleEntry(graph: Graph, left: Bag, b: Group, block: Option<TriplesBlock>)
    ensures EvalEntry(graph, left, Sub(UnionPattern(Single(b)), block)) == Join(Join(left, Eval(graph, b)), EvalBlock(graph, block))
  {
    SingleUnion(graph, b);
  }

  /** Every group has the solutions of its branches. */
  lemma {:induction false} BranchesHaveSolutions(graph: Graph, g: Group)
    ensures Same(Eval(graph, g), EvalUnion(graph, Branches(g)))
    decreases g, 0
  {
    PrefixHasSolutions(graph, g.triplesBlock, g.subs);
    GroupsWithEval(graph, g.triplesBlock, SubsBranches(g.subs));
  }

  lemma {:induction false} PrefixHasSolutions(graph: Graph, first: Option<TriplesBlock>, subs: seq<Sub>)
    ensures Same(EvalPrefix(graph, first, subs), EvalPrefixes(graph, first, SubsBranches(subs)))
    decreases subs, 0
  {
    if subs == [] {
      var qs: seq<seq<Sub>> := [[]];
      assert qs[..0] == [];
      assert EvalPrefixes(graph, first, qs) == [] + EvalPrefix(graph, first, []);
    } else {
      var init, last := subs[..|subs| - 1], subs[|subs| - 1];
      PrefixHasSolutions(graph, first, init);
      SameEntry(graph, EvalPrefix(graph, first, init), EvalPrefixes(graph, first, SubsBranches(init)), last);
      CrossHasSolutions(graph, first, SubsBranches(init), last);
    }
  }

  lemma {:induction false} CrossHasSolutions(graph: Graph, first: Option<TriplesBlock>, ps: seq<seq<Sub>>, sub: Sub)
    ensures Same(EvalEntry(graph, EvalPrefixes(graph, first, ps), sub), EvalPrefixes(graph, first, Cross(ps, SubBranches(sub))))
    decreases sub, |ps|
  {
    hide Extended, SubBranches, EvalEntry;
    if ps == [] {
      EntryOfNothing(graph, sub);
    } else {
      var init, p := ps[..|ps| - 1], ps[|ps| - 1];
      CrossHasSolutions(graph, first, init, sub);
      EntryOfSum(graph, EvalPrefixes(graph, first, init), EvalPrefix(graph, first, p), sub);
      EntryHasSolutions(graph, EvalPrefix(graph, first, p), sub);
      ExtendedEval(graph, first, p, SubBranches(sub));
      EvalPrefixesConcat(graph, first, Cross(init, SubBranches(sub)), Extended(p, SubBranches(sub)));
    }
  }

  lemma EntryOfNothing(graph: Graph, sub: Sub)
    ensures EvalEntry(graph, [], sub) == []
  {
  }

  lemma {:induction false} EntryHasSolutions(graph: Graph, left: Bag, sub: Sub)
    ensures Same(EvalEntry(graph, left, sub), EvalEntries(graph, left, SubBranches(sub)))
    decreases sub, 0
  {
    match sub.pattern {
      case OptionalPattern(_) =>
        assert [sub][..0] == [];
        assert EvalEntries(graph, left, [sub]) == [] + EvalEntry(graph, left, sub);
      case UnionPattern(gou) =>
        var bs, u := AllBranches(gou.alternatives), EvalUnion(graph, gou.alternatives);
        AlternativesHaveSolutions(graph, gou.alternatives);
        SameJoinRight(left, u, EvalUnion(graph, bs));
        SameJoinLeft(Join(left, u), Join(left, EvalUnion(graph, bs)), EvalBlock(graph, sub.triplesBlock));
        SubsWithEval(graph, left, bs, sub.triplesBlock);
    }
  }

  lemma {:induction false} AlternativesHaveSolutions(graph: Graph, gs: seq<Group>)
    ensures Same(EvalUnion(graph, gs), EvalUnion(graph, AllBranches(gs)))
    decreases gs, 0
  {
    if gs != [] {
      AlternativesHaveSolutions(graph, gs[..|gs| - 1]);
      BranchesHaveSolutions(graph, gs[|gs| - 1]);
      EvalUnionConcat(graph, AllBranches(gs[..|gs| - 1]), Branches(gs[|gs| - 1]));
    }
  }

  // ---- a row of unions and its choices ----

  ghost function JoinEach(graph: Graph, left: Bag, cs: seq<seq<GroupOrUnion>>): Bag {
    if cs == [] then [] else JoinEach(graph, left, cs[..|cs| - 1]) + JoinUnions(graph, left, cs[|cs| - 1])
  }

  lemma {:induction false} JoinEachConcat(graph: Graph, left: Bag, a: seq<seq<GroupOrUnion>>, b: seq<seq<GroupOrUnion>>)
    ensures JoinEach(graph, left, a + b) == JoinEach(graph, left, a) + JoinEach(graph, left, b)
  {
    if b == [] {
      assert a + b == a;
    } else {
      assert (a + b)[..|a + b| - 1] == a + b[..|b| - 1];
      JoinEachConcat(graph, left, a, b[..|b| - 1]);
    }
  }

  lemma {:induction false} JoinEachExtended(graph: Graph, left: Bag, c: seq<GroupOrUnion>, bs: seq<Group>)
    ensures Same(Join(JoinUnions(graph, left, c), EvalUnion(graph, bs)), JoinEach(graph, left, Extended(c, Singles(bs))))
  {
    var l := JoinUnions(graph, left, c);
    if bs == [] {
      JoinEmptyRight(l);
    } else {
      var init, b := bs[..|bs| - 1], bs[|bs| - 1];
      JoinEachExtended(graph, left, c, init);
      JoinConcatRight(l, EvalUnion(graph, init), Eval(graph, b));
      var d := c + [Single(b)];
      assert d[..|d| - 1] == c;
      SingleUnion(graph, b);
      assert JoinUnions(graph, left, d) == Join(l, Eval(graph, b));
      assert Extended(c, Singles(bs)) == Extended(c, Singles(init)) + [d];
      JoinEachLast(graph, left, Extended(c, Singles(init)), d);
    }
  }

  lemma JoinEachLast(graph: Graph, left: Bag, cs: seq<seq<GroupOrUnion>>, d: seq<GroupOrUnion>)
    ensures JoinEach(graph, left, cs + [d]) == JoinEach(graph, left, cs) + JoinUnions(graph, left, d)
  {
    assert (cs + [d])[..|cs|] == cs;
  }

  lemma {:induction false} JoinEachCross(graph: Graph, left: Bag, cs: seq<seq<GroupOrUnion>>, bs: seq<Group>)
    ensures Same(Join(JoinEach(graph, left, cs), EvalUnion(graph, bs)), JoinEach(graph, left, Cross(cs, Singles(bs))))
  {
    hide Extended, Singles;
    if cs != [] {
      var init, c := cs[..|cs| - 1], cs[|cs| - 1];
      JoinEachCross(graph, left, init, bs);
      JoinConcatLeft(JoinEach(graph, left, init), JoinUnions(graph, left, c), EvalUnion(graph, bs));
      JoinEachExtended(graph, left, c, bs);
      JoinEachConcat(graph, left, Cross(init, Singles(bs)), Extended(c, Singles(bs)));
    }
  }

  /** Joining with a row of unions has the solutions of joining with each choice from them. */
  lemma {:induction false} ChoicesHaveSolutions(graph: Graph, left: Bag, gous: seq<GroupOrUnion>)
    ensures Same(JoinUnions(graph, left, gous), JoinEach(graph, left, GousBranches(gous)))
  {
    hide Singles, Cross;
    if gous == [] {
      var none: seq<seq<GroupOrUnion>> := [];
      assert none + [[]] == GousBranches(gous);
      JoinEachLast(graph, left, none, []);
    } else {
      var init, gs := gous[..|gous| - 1], gous[|gous| - 1].alternatives;
      var l, each := JoinUnions(graph, left, init), JoinEach(graph, left, GousBranches(init));
      ChoicesHaveSolutions(graph, left, init);
      SameJoinLeft(l, each, EvalUnion(graph, gs));
      AlternativesHaveSolutions(graph, gs);
      SameJoinRight(each, EvalUnion(graph, gs), EvalUnion(graph, AllBranches(gs)));
      JoinEachCross(graph, left, GousBranches(init), AllBranches(gs));
    }
  }

}
