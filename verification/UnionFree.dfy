/**
 The union-free branches of a group: one alternative chosen for each UNION and nested group outside
 of OPTIONALs, whose bodies are not distributed.
 */
module UnionFree {
  import opened Wrappers
  import opened Patterns

  // ---- choosing one of several continuations ----

  function Extended<T>(p: seq<T>, xs: seq<T>): (qs: seq<seq<T>>)
    ensures |qs| == |xs| && forall i :: 0 <= i < |xs| ==> qs[i] == p + [xs[i]]
  {
    if xs == [] then [] else Extended(p, xs[..|xs| - 1]) + [p + [xs[|xs| - 1]]]
  }

  function Cross<T>(ps: seq<seq<T>>, xs: seq<T>): seq<seq<T>> {
    if ps == [] then [] else Cross(ps[..|ps| - 1], xs) + Extended(ps[|ps| - 1], xs)
  }

  // ---- branches ----

  function Branches(g: Group): seq<Group>
    decreases g, 0
  {
    GroupsWith(g.triplesBlock, SubsBranches(g.subs))
  }

  function SubsBranches(subs: seq<Sub>): seq<seq<Sub>>
    decreases subs, 0
  {
    if subs == [] then [[]] else Cross(SubsBranches(subs[..|subs| - 1]), SubBranches(subs[|subs| - 1]))
  }

  function SubBranches(sub: Sub): seq<Sub>
    decreases sub, 0
  {
    match sub.pattern
    case UnionPattern(gou) => SubsWith(AllBranches(gou.alternatives), sub.triplesBlock)
    case OptionalPattern(_) => [sub]
  }

  function AllBranches(gs: seq<Group>): seq<Group>
    decreases gs, 0
  {
    if gs == [] then [] else AllBranches(gs[..|gs| - 1]) + Branches(gs[|gs| - 1])
  }

  function GroupsWith(first: Option<TriplesBlock>, qs: seq<seq<Sub>>): (gs: seq<Group>)
    ensures |gs| == |qs| && forall i :: 0 <= i < |qs| ==> gs[i] == Group(first, qs[i])
  {
    if qs == [] then [] else GroupsWith(first, qs[..|qs| - 1]) + [Group(first, qs[|qs| - 1])]
  }

  function Single(b: Group): GroupOrUnion {
    GroupOrUnion([b])
  }

  function Singles(bs: seq<Group>): (gous: seq<GroupOrUnion>)
    ensures |gous| == |bs| && forall i :: 0 <= i < |bs| ==> gous[i] == Single(bs[i])
  {
    if bs == [] then [] else Singles(bs[..|bs| - 1]) + [Single(bs[|bs| - 1])]
  }

  function SubsWith(bs: seq<Group>, block: Option<TriplesBlock>): (subs: seq<Sub>)
    ensures |subs| == |bs| && forall i :: 0 <= i < |bs| ==> subs[i] == Sub(UnionPattern(Single(bs[i])), block)
  {
    if bs == [] then [] else SubsWith(bs[..|bs| - 1], block) + [Sub(UnionPattern(Single(bs[|bs| - 1])), block)]
  }

  // The choices for a row of unions.
  function GousBranches(gous: seq<GroupOrUnion>): seq<seq<GroupOrUnion>> {
    if gous == [] then [[]]
    else Cross(GousBranches(gous[..|gous| - 1]), Singles(AllBranches(gous[|gous| - 1].alternatives)))
  }

  // ---- members ----

  lemma {:induction false} CrossMembers<T>(ps: seq<seq<T>>, xs: seq<T>, q: seq<T>)
    ensures q in Cross(ps, xs) <==> q != [] && Init(q) in ps && Last(q) in xs
  {
    if ps != [] {
      var p := ps[|ps| - 1];
      CrossMembers(ps[..|ps| - 1], xs, q);
      ExtendedMembers(p, xs, q);
      assert ps == ps[..|ps| - 1] + [p];
    }
  }

  lemma ExtendedMembers<T>(p: seq<T>, xs: seq<T>, q: seq<T>)
    ensures q in Extended(p, xs) <==> q != [] && Init(q) == p && Last(q) in xs
  {
    if q != [] && Init(q) == p && Last(q) in xs {
      var i :| 0 <= i < |xs| && xs[i] == Last(q);
      assert q == p + [xs[i]] == Extended(p, xs)[i];
    }
  }

  lemma GroupsWithMembers(first: Option<TriplesBlock>, qs: seq<seq<Sub>>, b: Group)
    ensures b in GroupsWith(first, qs) <==> b.triplesBlock == first && b.subs in qs
  {
    if b.triplesBlock == first && b.subs in qs {
      var i :| 0 <= i < |qs| && qs[i] == b.subs;
      assert GroupsWith(first, qs)[i] == b;
    }
  }

  lemma SubsWithMembers(bs: seq<Group>, block: Option<TriplesBlock>, s: Sub)
    ensures s in SubsWith(bs, block) <==>
      && s.triplesBlock == block && s.pattern.UnionPattern?
      && |s.pattern.gou.alternatives| == 1 && s.pattern.gou.alternatives[0] in bs
  {
    if s.pattern.UnionPattern? && |s.pattern.gou.alternatives| == 1 && s.pattern.gou.alternatives[0] in bs {
      var i :| 0 <= i < |bs| && bs[i] == s.pattern.gou.alternatives[0];
      assert s.triplesBlock == block ==> SubsWith(bs, block)[i] == s;
    }
  }

  lemma {:induction false} AllBranchesMember(gs: seq<Group>, i: nat, b: Group)
    requires i < |gs| && b in Branches(gs[i])
    ensures b in AllBranches(gs)
  {
    if i < |gs| - 1 {
      AllBranchesMember(gs[..|gs| - 1], i, b);
    }
  }

  // ---- branches collect the same triples and optionals, and one choice of the unions ----

  lemma {:induction false} SubsBranchCollects(first: Option<TriplesBlock>, subs: seq<Sub>, q: seq<Sub>)
    requires q in SubsBranches(subs)
    ensures TriplesOf(first, q) == TriplesOf(first, subs) && OptionalsOf(q) == OptionalsOf(subs)
  {
    if subs != [] {
      CrossMembers(SubsBranches(subs[..|subs| - 1]), SubBranches(subs[|subs| - 1]), q);
      SubsBranchCollects(first, subs[..|subs| - 1], Init(q));
      var s := Last(q);
      assert s.triplesBlock == subs[|subs| - 1].triplesBlock && OptionalsIn(s) == OptionalsIn(subs[|subs| - 1]);
    }
  }

  lemma {:induction false} BranchCollects(g: Group, b: Group)
    requires b in Branches(g)
    ensures Triples(b) == Triples(g) && Optionals(b) == Optionals(g) && b.subs in SubsBranches(g.subs)
  {
    GroupsWithMembers(g.triplesBlock, SubsBranches(g.subs), b);
    SubsBranchCollects(g.triplesBlock, g.subs, b.subs);
  }

  // Each row of choices `c` followed by the choices made in each of `qs`.
  function Chosen(c: seq<GroupOrUnion>, qs: seq<seq<Sub>>): (cs: seq<seq<GroupOrUnion>>)
    ensures |cs| == |qs| && forall i :: 0 <= i < |qs| ==> cs[i] == c + UnionsOf(qs[i])
  {
    if qs == [] then [] else Chosen(c, qs[..|qs| - 1]) + [c + UnionsOf(qs[|qs| - 1])]
  }

  function AllChosen(cs: seq<seq<GroupOrUnion>>, qs: seq<seq<Sub>>): seq<seq<GroupOrUnion>> {
    if cs == [] then [] else AllChosen(cs[..|cs| - 1], qs) + Chosen(cs[|cs| - 1], qs)
  }

  lemma ChosenConcat(c: seq<GroupOrUnion>, a: seq<seq<Sub>>, b: seq<seq<Sub>>)
    ensures Chosen(c, a + b) == Chosen(c, a) + Chosen(c, b)
  {
    hide Chosen, UnionsOf;
  }

  lemma {:induction false} CrossConcat<T>(a: seq<seq<T>>, b: seq<seq<T>>, xs: seq<T>)
    ensures Cross(a + b, xs) == Cross(a, xs) + Cross(b, xs)
  {
    hide Extended;
    if b == [] {
      assert a + b == a;
    } else {
      assert (a + b)[..|a + b| - 1] == a + b[..|b| - 1];
      CrossConcat(a, b[..|b| - 1], xs);
    }
  }

  lemma UnionsOfOneMore(p: seq<Sub>, sub: Sub)
    ensures UnionsOf(p + [sub]) == UnionsOf(p) + UnionsIn(sub)
  {
    assert (p + [sub])[..|p|] == p;
  }

  lemma {:induction false} ChosenExtended(c: seq<GroupOrUnion>, p: seq<Sub>, bs: seq<Group>, block: Option<TriplesBlock>)
    ensures Chosen(c, Extended(p, SubsWith(bs, block))) == Extended(c + UnionsOf(p), Singles(bs))
  {
    hide Chosen, Extended, SubsWith, Singles, UnionsOf;
    forall i | 0 <= i < |bs|
      ensures Chosen(c, Extended(p, SubsWith(bs, block)))[i] == Extended(c + UnionsOf(p), Singles(bs))[i]
    {
      UnionsOfOneMore(p, SubsWith(bs, block)[i]);
      assert c + (UnionsOf(p) + [Single(bs[i])]) == c + UnionsOf(p) + [Single(bs[i])];
    }
  }

  lemma {:induction false} ChosenCross(c: seq<GroupOrUnion>, ps: seq<seq<Sub>>, bs: seq<Group>, block: Option<TriplesBlock>)
    ensures Chosen(c, Cross(ps, SubsWith(bs, block))) == Cross(Chosen(c, ps), Singles(bs))
  {
    if ps != [] {
      var init, p := ps[..|ps| - 1], ps[|ps| - 1];
      ChosenCross(c, init, bs, block);
      ChosenConcat(c, Cross(init, SubsWith(bs, block)), Extended(p, SubsWith(bs, block)));
      ChosenExtended(c, p, bs, block);
      assert Chosen(c, ps)[..|ps| - 1] == Chosen(c, init);
    }
  }

  lemma {:induction false} CrossOne<T>(ps: seq<seq<T>>, x: T)
    ensures |Cross(ps, [x])| == |ps| && forall i :: 0 <= i < |ps| ==> Cross(ps, [x])[i] == ps[i] + [x]
  {
    if ps != [] {
      CrossOne(ps[..|ps| - 1], x);
    }
  }

  lemma {:induction false} ChosenPastOptional(c: seq<GroupOrUnion>, ps: seq<seq<Sub>>, sub: Sub)
    requires sub.pattern.OptionalPattern?
    ensures Chosen(c, Cross(ps, [sub])) == Chosen(c, ps)
  {
    hide Chosen, Cross, UnionsOf;
    CrossOne(ps, sub);
    forall i | 0 <= i < |ps| ensures Chosen(c, Cross(ps, [sub]))[i] == Chosen(c, ps)[i] {
      UnionsOfOneMore(ps[i], sub);
      assert UnionsOf(ps[i]) + [] == UnionsOf(ps[i]);
    }
  }

  lemma {:induction false} AllChosenCross(cs: seq<seq<GroupOrUnion>>, ps: seq<seq<Sub>>, bs: seq<Group>, block: Option<TriplesBlock>)
    ensures AllChosen(cs, Cross(ps, SubsWith(bs, block))) == Cross(AllChosen(cs, ps), Singles(bs))
  {
    if cs != [] {
      var init, c := cs[..|cs| - 1], cs[|cs| - 1];
      AllChosenCross(init, ps, bs, block);
      ChosenCross(c, ps, bs, block);
      CrossConcat(AllChosen(init, ps), Chosen(c, ps), Singles(bs));
    }
  }

  lemma {:induction false} AllChosenPastOptional(cs: seq<seq<GroupOrUnion>>, ps: seq<seq<Sub>>, sub: Sub)
    requires sub.pattern.OptionalPattern?
    ensures AllChosen(cs, Cross(ps, [sub])) == AllChosen(cs, ps)
  {
    if cs != [] {
      AllChosenPastOptional(cs[..|cs| - 1], ps, sub);
      ChosenPastOptional(cs[|cs| - 1], ps, sub);
    }
  }

  lemma NothingChosenOnce(c: seq<GroupOrUnion>)
    ensures Chosen(c, [[]]) == [c]
  {
    var none: seq<seq<Sub>> := [[]];
    assert Chosen(c, none)[0] == c + UnionsOf(none[0]) == c;
  }

  lemma {:induction false} NothingChosen(cs: seq<seq<GroupOrUnion>>)
    ensures AllChosen(cs, [[]]) == cs
  {
    hide Chosen;
    if cs != [] {
      NothingChosen(cs[..|cs| - 1]);
      NothingChosenOnce(cs[|cs| - 1]);
      assert cs == cs[..|cs| - 1] + [cs[|cs| - 1]];
    }
  }

  lemma {:induction false} ChoicesCollectOne(gous: seq<GroupOrUnion>, subs: seq<Sub>)
    requires subs != []
    requires AllChosen(GousBranches(gous), SubsBranches(subs[..|subs| - 1])) == GousBranches(gous + UnionsOf(subs[..|subs| - 1]))
    ensures AllChosen(GousBranches(gous), SubsBranches(subs)) == GousBranches(gous + UnionsOf(subs))
  {
    hide AllChosen, Cross, Singles, SubsWith, AllBranches, GousBranches;
    var init, last := subs[..|subs| - 1], subs[|subs| - 1];
    match last.pattern {
      case UnionPattern(gou) =>
        AllChosenCross(GousBranches(gous), SubsBranches(init), AllBranches(gou.alternatives), last.triplesBlock);
        GousBranchesOneMore(gous + UnionsOf(init), gou);
        assert gous + (UnionsOf(init) + [gou]) == (gous + UnionsOf(init)) + [gou];
      case OptionalPattern(_) =>
        AllChosenPastOptional(GousBranches(gous), SubsBranches(init), last);
        assert UnionsOf(init) + [] == UnionsOf(init);
    }
  }

  lemma GousBranchesOneMore(gous: seq<GroupOrUnion>, gou: GroupOrUnion)
    ensures GousBranches(gous + [gou]) == Cross(GousBranches(gous), Singles(AllBranches(gou.alternatives)))
  {
    assert (gous + [gou])[..|gous|] == gous;
  }

  /** Choosing from pending unions and then in a group is choosing from the unions collected together. */
  lemma {:induction false} ChoicesCollect(gous: seq<GroupOrUnion>, subs: seq<Sub>)
    ensures AllChosen(GousBranches(gous), SubsBranches(subs)) == GousBranches(gous + UnionsOf(subs))
  {
    if subs == [] {
      NothingChosen(GousBranches(gous));
      assert gous + [] == gous;
    } else {
      ChoicesCollect(gous, subs[..|subs| - 1]);
      ChoicesCollectOne(gous, subs);
    }
  }

  lemma {:induction false} AllChosenMember(cs: seq<seq<GroupOrUnion>>, qs: seq<seq<Sub>>, d: seq<GroupOrUnion>)
    returns (c: seq<GroupOrUnion>, q: seq<Sub>)
    requires d in AllChosen(cs, qs)
    ensures c in cs && q in qs && d == c + UnionsOf(q)
  {
    if d in Chosen(cs[|cs| - 1], qs) {
      c := cs[|cs| - 1];
      var i :| 0 <= i < |qs| && Chosen(c, qs)[i] == d;
      q := qs[i];
    } else {
      c, q := AllChosenMember(cs[..|cs| - 1], qs, d);
    }
  }

  // ---- branches are union-free, and there is one per choice ----

  predicate IsUnionFree(g: Group)
    decreases g, 0
  {
    AreUnionFree(g.subs)
  }

  predicate AreUnionFree(subs: seq<Sub>)
    decreases subs, 0
  {
    subs == [] || (AreUnionFree(subs[..|subs| - 1]) && IsSingle(subs[|subs| - 1]))
  }

  predicate IsSingle(sub: Sub)
    decreases sub, 0
  {
    match sub.pattern
    case UnionPattern(gou) => |gou.alternatives| == 1 && IsUnionFree(gou.alternatives[0])
    case OptionalPattern(_) => true
  }

  /** Every branch has a single alternative wherever the group has a UNION. */
  lemma {:induction false} BranchesAreUnionFree(g: Group, b: Group)
    requires b in Branches(g)
    ensures IsUnionFree(b)
    decreases g, 0
  {
    GroupsWithMembers(g.triplesBlock, SubsBranches(g.subs), b);
    SubsBranchesAreUnionFree(g.subs, b.subs);
  }

  lemma {:induction false} SubsBranchesAreUnionFree(subs: seq<Sub>, q: seq<Sub>)
    requires q in SubsBranches(subs)
    ensures AreUnionFree(q)
    decreases subs, 0
  {
    if subs != [] {
      hide SubBranches, IsSingle, Cross;
      var init, last := subs[..|subs| - 1], subs[|subs| - 1];
      CrossMembers(SubsBranches(init), SubBranches(last), q);
      SubsBranchesAreUnionFree(init, q[..|q| - 1]);
      SubBranchIsUnionFree(last, q[|q| - 1]);
    }
  }

  lemma {:induction false} SubBranchIsUnionFree(sub: Sub, s: Sub)
    requires s in SubBranches(sub)
    ensures IsSingle(s)
    decreases sub, 0
  {
    if sub.pattern.UnionPattern? {
      SubsWithMembers(AllBranches(sub.pattern.gou.alternatives), sub.triplesBlock, s);
      AllBranchesAreUnionFree(sub.pattern.gou.alternatives, s.pattern.gou.alternatives[0]);
    }
  }

  lemma {:induction false} AllBranchesAreUnionFree(gs: seq<Group>, b: Group)
    requires b in AllBranches(gs)
    ensures IsUnionFree(b)
    decreases gs, 0
  {
    if b in Branches(gs[|gs| - 1]) {
      BranchesAreUnionFree(gs[|gs| - 1], b);
    } else {
      AllBranchesAreUnionFree(gs[..|gs| - 1], b);
    }
  }

  lemma {:induction false} CrossSize<T>(ps: seq<seq<T>>, xs: seq<T>)
    ensures |Cross(ps, xs)| == |ps| * |xs|
  {
    if ps != [] {
      CrossSize(ps[..|ps| - 1], xs);
      assert |ps| * |xs| == (|ps| - 1) * |xs| + |xs|;
    }
  }

  /** There are as many branches as leaves: the product over unions of the sum over their alternatives. */
  lemma {:induction false} BranchCount(g: Group)
    ensures |Branches(g)| == LeafCount(g)
    decreases g, 0
  {
    SubsBranchCount(g.subs);
  }

  lemma {:induction false} SubsBranchCount(subs: seq<Sub>)
    ensures |SubsBranches(subs)| == SubsLeafCount(subs)
    decreases subs, 0
  {
    if subs != [] {
      var init, last := subs[..|subs| - 1], subs[|subs| - 1];
      SubsBranchCount(init);
      CrossSize(SubsBranches(init), SubBranches(last));
      SubBranchCount(last);
    }
  }

  lemma {:induction false} SubBranchCount(sub: Sub)
    ensures |SubBranches(sub)| == SubLeafCount(sub)
    decreases sub, 0
  {
    if sub.pattern.UnionPattern? {
      AllBranchCount(sub.pattern.gou.alternatives);
    }
  }

  lemma {:induction false} AllBranchCount(gs: seq<Group>)
    ensures |AllBranches(gs)| == AlternativesLeafCount(gs)
    decreases gs, 0
  {
    if gs != [] {
      AllBranchCount(gs[..|gs| - 1]);
      BranchCount(gs[|gs| - 1]);
    }
  }

}
