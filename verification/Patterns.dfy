/**
 Group graph patterns as the parser delivers them, the union-of-branches normal form the visitor
 walks, and the pure rewriting `Expand` from one to the other.
 */
module Patterns {
  import opened Wrappers
  import opened Rdf

  // ---- syntax tree: triples blocks ----

  // A verb with its object list, which the grammar keeps non-empty.
  datatype Property = Property(verb: Node, firstObject: Node, moreObjects: seq<Node>)

  datatype SameSubject = SameSubject(subject: Node, firstProperty: Property, moreProperties: seq<Property>)

  type TriplesBlock = seq<SameSubject>

  function Objects(p: Property): seq<Node> {
    [p.firstObject] + p.moreObjects
  }

  function Properties(ss: SameSubject): seq<Property> {
    [ss.firstProperty] + ss.moreProperties
  }

  function ObjectPatterns(subject: Node, verb: Node, objects: seq<Node>): seq<TriplePattern> {
    if objects == [] then []
    else ObjectPatterns(subject, verb, objects[..|objects| - 1]) + [TriplePattern(subject, verb, objects[|objects| - 1])]
  }

  function PropertyPatterns(subject: Node, properties: seq<Property>): seq<TriplePattern> {
    if properties == [] then []
    else
      var last := properties[|properties| - 1];
      PropertyPatterns(subject, properties[..|properties| - 1]) + ObjectPatterns(subject, last.verb, Objects(last))
  }

  // The triple patterns of a block, in the order they are written.
  function BlockPatterns(block: TriplesBlock): seq<TriplePattern> {
    if block == [] then []
    else
      var last := block[|block| - 1];
      BlockPatterns(block[..|block| - 1]) + PropertyPatterns(last.subject, Properties(last))
  }

  function BlocksPatterns(blocks: seq<TriplesBlock>): seq<TriplePattern> {
    if blocks == [] then []
    else BlocksPatterns(blocks[..|blocks| - 1]) + BlockPatterns(blocks[|blocks| - 1])
  }

  // ---- syntax tree: groups ----

  datatype Group = Group(triplesBlock: Option<TriplesBlock>, subs: seq<Sub>)

  datatype Sub = Sub(pattern: NotTriples, triplesBlock: Option<TriplesBlock>)

  datatype NotTriples = UnionPattern(gou: GroupOrUnion) | OptionalPattern(group: Group)

  // One alternative is a nested group, several are a UNION.
  datatype GroupOrUnion = GroupOrUnion(alternatives: seq<Group>)

  function BlockList(block: Option<TriplesBlock>): seq<TriplesBlock> {
    match block
    case Some(b) => [b]
    case None => []
  }

  // What one pass over the first entries of a group collects, in order.
  function TriplesOf(first: Option<TriplesBlock>, subs: seq<Sub>): seq<TriplesBlock> {
    if subs == [] then BlockList(first)
    else TriplesOf(first, subs[..|subs| - 1]) + BlockList(subs[|subs| - 1].triplesBlock)
  }

  function UnionsIn(sub: Sub): seq<GroupOrUnion> {
    match sub.pattern
    case UnionPattern(gou) => [gou]
    case OptionalPattern(_) => []
  }

  function OptionalsIn(sub: Sub): seq<Group> {
    match sub.pattern
    case UnionPattern(_) => []
    case OptionalPattern(group) => [group]
  }

  function UnionsOf(subs: seq<Sub>): seq<GroupOrUnion> {
    if subs == [] then [] else UnionsOf(subs[..|subs| - 1]) + UnionsIn(subs[|subs| - 1])
  }

  function OptionalsOf(subs: seq<Sub>): seq<Group> {
    if subs == [] then [] else OptionalsOf(subs[..|subs| - 1]) + OptionalsIn(subs[|subs| - 1])
  }

  function Triples(g: Group): seq<TriplesBlock> { TriplesOf(g.triplesBlock, g.subs) }

  function Unions(g: Group): seq<GroupOrUnion> { UnionsOf(g.subs) }

  function Optionals(g: Group): seq<Group> { OptionalsOf(g.subs) }

  // ---- pending tree size: the termination measure of the visitor ----

  function GroupSize(g: Group): nat
    decreases g, 0
  {
    1 + SubsSize(g.subs)
  }

  function SubsSize(subs: seq<Sub>): nat
    decreases subs, 0
  {
    if subs == [] then 0 else SubsSize(subs[..|subs| - 1]) + SubSize(subs[|subs| - 1])
  }

  function SubSize(sub: Sub): nat
    decreases sub, 0
  {
    match sub.pattern
    case UnionPattern(gou) => GouSize(gou)
    case OptionalPattern(group) => GroupSize(group)
  }

  function GouSize(gou: GroupOrUnion): nat
    decreases gou, 1
  {
    1 + GroupsSize(gou.alternatives)
  }

  function GroupsSize(gs: seq<Group>): nat
    decreases gs, 0
  {
    if gs == [] then 0 else GroupsSize(gs[..|gs| - 1]) + GroupSize(gs[|gs| - 1])
  }

  function GousSize(gous: seq<GroupOrUnion>): nat {
    if gous == [] then 0 else GousSize(gous[..|gous| - 1]) + GouSize(gous[|gous| - 1])
  }

  function PendingSize(g: Group, gous: seq<GroupOrUnion>, opts: seq<Group>): nat {
    GroupSize(g) + GousSize(gous) + GroupsSize(opts)
  }

  lemma {:induction false} GousSizeConcat(a: seq<GroupOrUnion>, b: seq<GroupOrUnion>)
    ensures GousSize(a + b) == GousSize(a) + GousSize(b)
  {
    if b == [] {
      assert a + b == a;
    } else {
      assert (a + b)[..|a + b| - 1] == a + b[..|b| - 1];
      GousSizeConcat(a, b[..|b| - 1]);
    }
  }

  lemma {:induction false} GroupsSizeConcat(a: seq<Group>, b: seq<Group>)
    ensures GroupsSize(a + b) == GroupsSize(a) + GroupsSize(b)
  {
    if b == [] {
      assert a + b == a;
    } else {
      assert (a + b)[..|a + b| - 1] == a + b[..|b| - 1];
      GroupsSizeConcat(a, b[..|b| - 1]);
    }
  }

  lemma {:induction false} GroupsSizeMember(gs: seq<Group>, i: nat)
    requires i < |gs|
    ensures GroupSize(gs[i]) <= GroupsSize(gs)
  {
    if i < |gs| - 1 {
      GroupsSizeMember(gs[..|gs| - 1], i);
    }
  }

  lemma {:induction false} CollectedSize(subs: seq<Sub>)
    ensures GousSize(UnionsOf(subs)) + GroupsSize(OptionalsOf(subs)) == SubsSize(subs)
  {
    if subs != [] {
      var init, last := subs[..|subs| - 1], subs[|subs| - 1];
      CollectedSize(init);
      GousSizeConcat(UnionsOf(init), UnionsIn(last));
      GroupsSizeConcat(OptionalsOf(init), OptionalsIn(last));
      match last.pattern {
        case UnionPattern(gou) => assert GousSize([gou]) == GousSize([]) + GouSize(gou);
        case OptionalPattern(group) => assert GroupsSize([group]) == GroupsSize([]) + GroupSize(group);
      }
    }
  }

  /** Everything one call collects is smaller than the call itself. */
  lemma CollectedIsSmaller(g: Group, gous: seq<GroupOrUnion>, opts: seq<Group>)
    ensures GousSize(gous + Unions(g)) + GroupsSize(opts + Optionals(g)) < PendingSize(g, gous, opts)
  {
    CollectedSize(g.subs);
    GousSizeConcat(gous, Unions(g));
    GroupsSizeConcat(opts, Optionals(g));
  }

  function Last<T>(s: seq<T>): T
    requires s != []
  {
    s[|s| - 1]
  }

  function Init<T>(s: seq<T>): seq<T>
    requires s != []
  {
    s[..|s| - 1]
  }

  // ---- normal form ----

  // A union of leaves: each a basic graph pattern followed by OPTIONALs in normal form.
  datatype NormalForm = NormalForm(leaves: seq<Leaf>)

  datatype Leaf = Leaf(bgp: seq<TriplePattern>, optionals: seq<NormalForm>)

  /**
   The leaves visited for group `g` while the unions `gous` are still to be distributed and the
   triples blocks `tbs` and optional groups `opts` have been collected around it.
   */
  function Expand(g: Group, gous: seq<GroupOrUnion>, tbs: seq<TriplesBlock>, opts: seq<Group>): seq<Leaf>
    decreases PendingSize(g, gous, opts), 0
  {
    var gous', tbs', opts' := gous + Unions(g), tbs + Triples(g), opts + Optionals(g);
    CollectedIsSmaller(g, gous, opts);
    if gous' == [] then
      [Leaf(BlocksPatterns(tbs'), NormalizeAll(opts'))]
    else
      ExpandAll(Last(gous').alternatives, Init(gous'), tbs', opts')
  }

  // The leaves of the alternatives `gs`, one after the other, in the same surroundings.
  function ExpandAll(gs: seq<Group>, gous: seq<GroupOrUnion>, tbs: seq<TriplesBlock>, opts: seq<Group>): seq<Leaf>
    decreases GroupsSize(gs) + GousSize(gous) + GroupsSize(opts), 1, gs
  {
    if gs == [] then []
    else ExpandAll(Init(gs), gous, tbs, opts) + Expand(Last(gs), gous, tbs, opts)
  }

  function Normalize(g: Group): NormalForm
    decreases GroupSize(g), 1, 0
  {
    NormalForm(Expand(g, [], [], []))
  }

  function NormalizeAll(gs: seq<Group>): (nfs: seq<NormalForm>)
    ensures |nfs| == |gs|
    decreases GroupsSize(gs), 2, gs
  {
    if gs == [] then [] else NormalizeAll(Init(gs)) + [Normalize(Last(gs))]
  }

  // ---- how many leaves a group expands to ----

  /** The product, over the unions of the group, of the sum over their alternatives. */
  function LeafCount(g: Group): nat
    decreases g, 0
  {
    SubsLeafCount(g.subs)
  }

  function SubsLeafCount(subs: seq<Sub>): nat
    decreases subs, 0
  {
    if subs == [] then 1 else SubsLeafCount(subs[..|subs| - 1]) * SubLeafCount(subs[|subs| - 1])
  }

  function SubLeafCount(sub: Sub): nat
    decreases sub, 0
  {
    match sub.pattern
    case UnionPattern(gou) => AlternativesLeafCount(gou.alternatives)
    case OptionalPattern(_) => 1
  }

  function AlternativesLeafCount(gs: seq<Group>): nat
    decreases gs, 0
  {
    if gs == [] then 0 else AlternativesLeafCount(gs[..|gs| - 1]) + LeafCount(gs[|gs| - 1])
  }

  function GousLeafCount(gous: seq<GroupOrUnion>): nat {
    if gous == [] then 1 else GousLeafCount(Init(gous)) * AlternativesLeafCount(Last(gous).alternatives)
  }

  lemma MulAssoc(a: nat, b: nat, c: nat)
    ensures a * b * c == a * (b * c)
  {
  }

  lemma MulDistributes(a: nat, b: nat, c: nat)
    ensures a * b + a * c == a * (b + c)
  {
  }

  lemma {:induction false} GousLeafCountConcat(gous: seq<GroupOrUnion>, subs: seq<Sub>)
    ensures GousLeafCount(gous + UnionsOf(subs)) == GousLeafCount(gous) * SubsLeafCount(subs)
  {
    if subs == [] {
      assert gous + [] == gous;
    } else {
      var init, last := Init(subs), Last(subs);
      GousLeafCountConcat(gous, init);
      MulAssoc(GousLeafCount(gous), SubsLeafCount(init), SubLeafCount(last));
      match last.pattern {
        case UnionPattern(gou) =>
          assert gous + UnionsOf(subs) == (gous + UnionsOf(init)) + [gou];
          assert Init(gous + UnionsOf(subs)) == gous + UnionsOf(init);
        case OptionalPattern(_) =>
          assert gous + UnionsOf(subs) == gous + UnionsOf(init);
      }
    }
  }

  /** Every pending union multiplies the leaves of a group; collected triples and optionals do not. */
  lemma {:induction false} ExpandLeafCount(g: Group, gous: seq<GroupOrUnion>, tbs: seq<TriplesBlock>, opts: seq<Group>)
    ensures |Expand(g, gous, tbs, opts)| == GousLeafCount(gous) * LeafCount(g)
    decreases PendingSize(g, gous, opts), 0
  {
    var gous', tbs', opts' := gous + Unions(g), tbs + Triples(g), opts + Optionals(g);
    CollectedIsSmaller(g, gous, opts);
    GousLeafCountConcat(gous, g.subs);
    if gous' != [] {
      ExpandAllLeafCount(Last(gous').alternatives, Init(gous'), tbs', opts');
    }
  }

  lemma {:induction false} ExpandAllLeafCount(gs: seq<Group>, gous: seq<GroupOrUnion>, tbs: seq<TriplesBlock>, opts: seq<Group>)
    ensures |ExpandAll(gs, gous, tbs, opts)| == GousLeafCount(gous) * AlternativesLeafCount(gs)
    decreases GroupsSize(gs) + GousSize(gous) + GroupsSize(opts), 1, gs
  {
    if gs != [] {
      ExpandAllLeafCount(Init(gs), gous, tbs, opts);
      ExpandLeafCount(Last(gs), gous, tbs, opts);
      MulDistributes(GousLeafCount(gous), AlternativesLeafCount(Init(gs)), LeafCount(Last(gs)));
    }
  }

  // ---- the order of leaves, on two unions ----

  function Plain(block: TriplesBlock): Group {
    Group(Some(block), [])
  }

  // `{ t { a } UNION { b } u { c } UNION { d } v OPTIONAL { o } w }`
  function TwoUnions(t: TriplesBlock, a: TriplesBlock, b: TriplesBlock, u: TriplesBlock, c: TriplesBlock, d: TriplesBlock,
                     v: TriplesBlock, o: Group, w: TriplesBlock): Group {
    Group(Some(t), [
      Sub(UnionPattern(GroupOrUnion([Plain(a), Plain(b)])), Some(u)),
      Sub(UnionPattern(GroupOrUnion([Plain(c), Plain(d)])), Some(v)),
      Sub(OptionalPattern(o), Some(w))])
  }

  lemma CollectOneMore(first: Option<TriplesBlock>, subs: seq<Sub>, sub: Sub)
    ensures TriplesOf(first, subs + [sub]) == TriplesOf(first, subs) + BlockList(sub.triplesBlock)
    ensures UnionsOf(subs + [sub]) == UnionsOf(subs) + UnionsIn(sub)
    ensures OptionalsOf(subs + [sub]) == OptionalsOf(subs) + OptionalsIn(sub)
  {
    assert (subs + [sub])[..|subs|] == subs;
  }

  lemma CollectThree(first: Option<TriplesBlock>, x: Sub, y: Sub, z: Sub)
    ensures TriplesOf(first, [x, y, z])
      == BlockList(first) + BlockList(x.triplesBlock) + BlockList(y.triplesBlock) + BlockList(z.triplesBlock)
    ensures UnionsOf([x, y, z]) == UnionsIn(x) + UnionsIn(y) + UnionsIn(z)
    ensures OptionalsOf([x, y, z]) == OptionalsIn(x) + OptionalsIn(y) + OptionalsIn(z)
  {
    hide TriplesOf, UnionsOf, OptionalsOf, BlockList, UnionsIn, OptionalsIn;
    var none: seq<Sub> := [];
    assert none + [x] == [x] && [x] + [y] == [x, y] && [x, y] + [z] == [x, y, z];
    CollectNothing(first);
    CollectOneMore(first, none, x);
    CollectOneMore(first, [x], y);
    CollectOneMore(first, [x, y], z);
  }

  lemma CollectNothing(first: Option<TriplesBlock>)
    ensures TriplesOf(first, []) == BlockList(first) && UnionsOf([]) == [] && OptionalsOf([]) == []
  {
  }

  lemma TwoUnionsCollected(t: TriplesBlock, a: TriplesBlock, b: TriplesBlock, u: TriplesBlock, c: TriplesBlock, d: TriplesBlock,
                           v: TriplesBlock, o: Group, w: TriplesBlock)
    ensures
      var g := TwoUnions(t, a, b, u, c, d, v, o, w);
      && Triples(g) == [t, u, v, w] && Optionals(g) == [o]
      && Unions(g) == [GroupOrUnion([Plain(a), Plain(b)]), GroupOrUnion([Plain(c), Plain(d)])]
  {
    hide TriplesOf, UnionsOf, OptionalsOf, Plain;
    var subs := TwoUnions(t, a, b, u, c, d, v, o, w).subs;
    CollectThree(Some(t), subs[0], subs[1], subs[2]);
    assert subs == [subs[0], subs[1], subs[2]];
  }

  lemma ExpandPlain(block: TriplesBlock, tbs: seq<TriplesBlock>, opts: seq<Group>)
    ensures Expand(Plain(block), [], tbs, opts) == [Leaf(BlocksPatterns(tbs + [block]), NormalizeAll(opts))]
  {
    assert [] + Unions(Plain(block)) == [] && opts + Optionals(Plain(block)) == opts;
    assert tbs + Triples(Plain(block)) == tbs + [block];
  }

  lemma ExpandTwo(x: Group, y: Group, gous: seq<GroupOrUnion>, tbs: seq<TriplesBlock>, opts: seq<Group>)
    ensures ExpandAll([x, y], gous, tbs, opts) == Expand(x, gous, tbs, opts) + Expand(y, gous, tbs, opts)
  {
    hide Expand;
    var none: seq<Group> := [];
    assert Init([x, y]) == [x] && Init([x]) == none;
    assert ExpandAll(none, gous, tbs, opts) == [];
    assert ExpandAll([x], gous, tbs, opts) == [] + Expand(x, gous, tbs, opts);
  }

  lemma ExpandPlainNextTo(block: TriplesBlock, x: TriplesBlock, y: TriplesBlock, tbs: seq<TriplesBlock>, opts: seq<Group>)
    ensures Expand(Plain(block), [GroupOrUnion([Plain(x), Plain(y)])], tbs, opts) == [
      Leaf(BlocksPatterns(tbs + [block] + [x]), NormalizeAll(opts)),
      Leaf(BlocksPatterns(tbs + [block] + [y]), NormalizeAll(opts))]
  {
    var gou, none: seq<GroupOrUnion> := GroupOrUnion([Plain(x), Plain(y)]), [];
    assert [gou] + Unions(Plain(block)) == [gou] && Init([gou]) == none && Last([gou]) == gou;
    assert opts + Optionals(Plain(block)) == opts && tbs + Triples(Plain(block)) == tbs + [block];
    CollectedIsSmaller(Plain(block), [gou], opts);
    assert Expand(Plain(block), [gou], tbs, opts) == ExpandAll([Plain(x), Plain(y)], none, tbs + [block], opts);
    hide Expand, ExpandAll;
    ExpandTwo(Plain(x), Plain(y), none, tbs + [block], opts);
    ExpandPlain(x, tbs + [block], opts);
    ExpandPlain(y, tbs + [block], opts);
  }

  /**
   The last UNION varies slowest. In each leaf the blocks of the group come first, in order, then those
   of the alternatives chosen, from the last UNION to the first; the OPTIONALs are the same in all.
   */
  lemma LeavesInOrder(t: TriplesBlock, a: TriplesBlock, b: TriplesBlock, u: TriplesBlock, c: TriplesBlock, d: TriplesBlock,
                      v: TriplesBlock, o: Group, w: TriplesBlock)
    ensures Normalize(TwoUnions(t, a, b, u, c, d, v, o, w)).leaves == [
      Leaf(BlocksPatterns([t, u, v, w] + [c] + [a]), [Normalize(o)]),
      Leaf(BlocksPatterns([t, u, v, w] + [c] + [b]), [Normalize(o)]),
      Leaf(BlocksPatterns([t, u, v, w] + [d] + [a]), [Normalize(o)]),
      Leaf(BlocksPatterns([t, u, v, w] + [d] + [b]), [Normalize(o)])]
  {
    var g := TwoUnions(t, a, b, u, c, d, v, o, w);
    TwoUnionsCollected(t, a, b, u, c, d, v, o, w);
    hide TwoUnions, Triples, Unions, Optionals, BlocksPatterns, NormalizeAll;
    ExpandTwoUnions(g, Plain(a), Plain(b), Plain(c), Plain(d), [t, u, v, w], [o]);
    NormalizeOne(o);
    ExpandPlainNextTo(c, a, b, [t, u, v, w], [o]);
    ExpandPlainNextTo(d, a, b, [t, u, v, w], [o]);
  }

  lemma NormalizeOne(o: Group)
    ensures NormalizeAll([o]) == [Normalize(o)]
  {
    var none: seq<Group> := [];
    assert Init([o]) == none;
    assert NormalizeAll([o]) == NormalizeAll(none) + [Normalize(o)];
  }

  lemma ExpandTwoUnions(g: Group, a: Group, b: Group, c: Group, d: Group, tbs: seq<TriplesBlock>, opts: seq<Group>)
    requires Unions(g) == [GroupOrUnion([a, b]), GroupOrUnion([c, d])] && Triples(g) == tbs && Optionals(g) == opts
    ensures Normalize(g).leaves
      == Expand(c, [GroupOrUnion([a, b])], tbs, opts) + Expand(d, [GroupOrUnion([a, b])], tbs, opts)
  {
    hide Triples, Unions, Optionals, ExpandAll;
    var ab, cd := GroupOrUnion([a, b]), GroupOrUnion([c, d]);
    assert [] + Unions(g) == [ab, cd] && [] + Optionals(g) == opts && [] + Triples(g) == tbs;
    assert Init([ab, cd]) == [ab] && Last([ab, cd]) == cd;
    assert Expand(g, [], [], []) == ExpandAll([c, d], [ab], tbs, opts);
    ExpandTwo(c, d, [ab], tbs, opts);
  }

}
