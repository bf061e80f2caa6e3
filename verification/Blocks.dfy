/**
 Which triple patterns a triples block stands for, read off the syntax tree: every subject with each
 verb of its list and each object of that verb's list, in the order they are written.
 */
module Blocks {
  import opened Wrappers
  import opened Rdf
  import opened Bags
  import opened Patterns
  import opened Semantics

  // ---- how many patterns there are ----

  function PropertiesCount(properties: seq<Property>): nat {
    if properties == [] then 0
    else PropertiesCount(properties[..|properties| - 1]) + 1 + |properties[|properties| - 1].moreObjects|
  }

  function BlockCount(block: TriplesBlock): nat {
    if block == [] then 0
    else
      var last := block[|block| - 1];
      BlockCount(block[..|block| - 1]) + 1 + |last.firstProperty.moreObjects| + PropertiesCount(last.moreProperties)
  }

  // Where in its block the patterns of property `j` of entry `i` begin.
  function Offset(block: TriplesBlock, i: nat, j: nat): nat
    requires i < |block| && j <= |block[i].moreProperties|
  {
    BlockCount(block[..i]) +
    if j == 0 then 0 else 1 + |block[i].firstProperty.moreObjects| + PropertiesCount(block[i].moreProperties[..j - 1])
  }

  // ---- one object list ----

  lemma {:induction false} ObjectPatternsAt(subject: Node, verb: Node, objects: seq<Node>)
    ensures |ObjectPatterns(subject, verb, objects)| == |objects|
    ensures forall k :: 0 <= k < |objects| ==> ObjectPatterns(subject, verb, objects)[k] == TriplePattern(subject, verb, objects[k])
  {
    if objects != [] {
      ObjectPatternsAt(subject, verb, objects[..|objects| - 1]);
    }
  }

  // ---- one property list ----

  function ListCount(properties: seq<Property>): nat {
    if properties == [] then 0
    else ListCount(properties[..|properties| - 1]) + |Objects(properties[|properties| - 1])|
  }

  lemma {:induction false} PropertyPatternsAt(subject: Node, properties: seq<Property>, j: nat, k: nat)
    requires j < |properties| && k < |Objects(properties[j])|
    ensures |PropertyPatterns(subject, properties)| == ListCount(properties)
    ensures ListCount(properties[..j]) + k < ListCount(properties)
    ensures PropertyPatterns(subject, properties)[ListCount(properties[..j]) + k]
      == TriplePattern(subject, properties[j].verb, Objects(properties[j])[k])
  {
    var init, last := properties[..|properties| - 1], properties[|properties| - 1];
    PropertyPatternsLength(subject, init);
    ObjectPatternsAt(subject, last.verb, Objects(last));
    if j < |init| {
      assert init[..j] == properties[..j];
      PropertyPatternsAt(subject, init, j, k);
    } else {
      assert properties[..j] == init;
    }
  }

  lemma {:induction false} PropertyPatternsLength(subject: Node, properties: seq<Property>)
    ensures |PropertyPatterns(subject, properties)| == ListCount(properties)
  {
    if properties != [] {
      var last := properties[|properties| - 1];
      PropertyPatternsLength(subject, properties[..|properties| - 1]);
      ObjectPatternsAt(subject, last.verb, Objects(last));
    }
  }

  lemma {:induction false} ListCountIsSum(first: Property, more: seq<Property>)
    ensures ListCount([first] + more) == 1 + |first.moreObjects| + PropertiesCount(more)
  {
    var all := [first] + more;
    if more == [] {
      assert all[..|all| - 1] == [];
    } else {
      assert all[..|all| - 1] == [first] + more[..|more| - 1];
      ListCountIsSum(first, more[..|more| - 1]);
    }
  }

  lemma NothingListed()
    ensures ListCount([]) == 0
  {
  }

  // The patterns of one entry of a block.
  lemma EntryPatternsAt(ss: SameSubject, j: nat, k: nat)
    requires j <= |ss.moreProperties|
    requires k <= |(if j == 0 then ss.firstProperty else ss.moreProperties[j - 1]).moreObjects|
    ensures
      var patterns := PropertyPatterns(ss.subject, Properties(ss));
      var before := if j == 0 then 0 else 1 + |ss.firstProperty.moreObjects| + PropertiesCount(ss.moreProperties[..j - 1]);
      var property := if j == 0 then ss.firstProperty else ss.moreProperties[j - 1];
      && |patterns| == 1 + |ss.firstProperty.moreObjects| + PropertiesCount(ss.moreProperties)
      && before + k < |patterns|
      && patterns[before + k]
        == TriplePattern(ss.subject, property.verb, if k == 0 then property.firstObject else property.moreObjects[k - 1])
  {
    hide PropertyPatterns, ListCount, PropertiesCount;
    var all := Properties(ss);
    PropertyPatternsAt(ss.subject, all, j, k);
    ListCountIsSum(ss.firstProperty, ss.moreProperties);
    if j == 0 {
      assert all[..0] == [] && ListCount([]) == 0 by {
        NothingListed();
      }
    } else {
      assert all[..j] == [ss.firstProperty] + ss.moreProperties[..j - 1];
      ListCountIsSum(ss.firstProperty, ss.moreProperties[..j - 1]);
    }
  }

  // ---- the block ----

  lemma {:induction false} BlockPatternsLength(block: TriplesBlock)
    ensures |BlockPatterns(block)| == BlockCount(block)
  {
    if block != [] {
      BlockPatternsLength(block[..|block| - 1]);
      EntryPatternsAt(block[|block| - 1], 0, 0);
    }
  }

  /**
   The pattern for object `k` of property `j` of entry `i` stands behind those of all earlier entries,
   properties and objects; and there are as many patterns as objects.
   */
  lemma {:induction false} BlockPatternsAt(block: TriplesBlock, i: nat, j: nat, k: nat)
    requires i < |block| && j <= |block[i].moreProperties|
    requires k <= |(if j == 0 then block[i].firstProperty else block[i].moreProperties[j - 1]).moreObjects|
    ensures |BlockPatterns(block)| == BlockCount(block) && Offset(block, i, j) + k < BlockCount(block)
    ensures
      var property := if j == 0 then block[i].firstProperty else block[i].moreProperties[j - 1];
      BlockPatterns(block)[Offset(block, i, j) + k]
        == TriplePattern(block[i].subject, property.verb, if k == 0 then property.firstObject else property.moreObjects[k - 1])
  {
    hide PropertyPatterns, PropertiesCount, Properties;
    var init, last := block[..|block| - 1], block[|block| - 1];
    BlockPatternsLength(block);
    BlockPatternsLength(init);
    if i < |init| {
      EntryPatternsAt(last, 0, 0);
      BlockPatternsAt(init, i, j, k);
      assert init[..i] == block[..i];
      assert Offset(init, i, j) == Offset(block, i, j);
    } else {
      assert block[..i] == init;
      EntryPatternsAt(last, j, k);
    }
  }

  lemma ObjectMembers(p: Property, o: Node)
    ensures o in Objects(p) <==> o == p.firstObject || o in p.moreObjects
  {
  }

  lemma {:induction false} PropertyPatternsMembers(subject: Node, properties: seq<Property>, tp: TriplePattern)
    ensures tp in PropertyPatterns(subject, properties) <==>
      exists p, o :: p in properties && (o == p.firstObject || o in p.moreObjects) && tp == TriplePattern(subject, p.verb, o)
  {
    if properties != [] {
      var init, last := properties[..|properties| - 1], properties[|properties| - 1];
      assert properties == init + [last];
      PropertyPatternsMembers(subject, init, tp);
      ObjectPatternsAt(subject, last.verb, Objects(last));
      ObjectMembers(last, tp.o);
      if tp in ObjectPatterns(subject, last.verb, Objects(last)) {
        var k :| 0 <= k < |Objects(last)| && ObjectPatterns(subject, last.verb, Objects(last))[k] == tp;
        assert last in properties && Objects(last)[k] == tp.o;
      }
      if o :| (o == last.firstObject || o in last.moreObjects) && tp == TriplePattern(subject, last.verb, o) {
        var k :| 0 <= k < |Objects(last)| && Objects(last)[k] == o;
        assert ObjectPatterns(subject, last.verb, Objects(last))[k] == tp;
      }
    }
  }

  // The object `o` is written in `block` under the verb of `p` and the subject of `ss`.
  ghost predicate IsWritten(block: TriplesBlock, ss: SameSubject, p: Property, o: Node) {
    && ss in block
    && (p == ss.firstProperty || p in ss.moreProperties)
    && (o == p.firstObject || o in p.moreObjects)
  }

  lemma EntryPatternsMembers(ss: SameSubject, tp: TriplePattern)
    ensures tp in PropertyPatterns(ss.subject, Properties(ss)) <==>
      exists p, o :: IsWritten([ss], ss, p, o) && tp == TriplePattern(ss.subject, p.verb, o)
  {
    PropertyPatternsMembers(ss.subject, Properties(ss), tp);
    hide PropertyPatterns;
    assert forall p :: p in Properties(ss) <==> p == ss.firstProperty || p in ss.moreProperties;
    if p, o :| p in Properties(ss) && (o == p.firstObject || o in p.moreObjects) && tp == TriplePattern(ss.subject, p.verb, o) {
      assert IsWritten([ss], ss, p, o);
    }
  }

  lemma {:induction false} PatternIsWritten(block: TriplesBlock, tp: TriplePattern) returns (ss: SameSubject, p: Property, o: Node)
    requires tp in BlockPatterns(block)
    ensures IsWritten(block, ss, p, o) && tp == TriplePattern(ss.subject, p.verb, o)
  {
    var init, last := block[..|block| - 1], block[|block| - 1];
    if tp in BlockPatterns(init) {
      ss, p, o := PatternIsWritten(init, tp);
    } else {
      EntryPatternsMembers(last, tp);
      ss := last;
      p, o :| IsWritten([last], last, p, o) && tp == TriplePattern(last.subject, p.verb, o);
    }
  }

  lemma {:induction false} WrittenIsPattern(block: TriplesBlock, ss: SameSubject, p: Property, o: Node)
    requires IsWritten(block, ss, p, o)
    ensures TriplePattern(ss.subject, p.verb, o) in BlockPatterns(block)
  {
    var init, last := block[..|block| - 1], block[|block| - 1];
    assert block == init + [last];
    if ss in init {
      WrittenIsPattern(init, ss, p, o);
    } else {
      assert IsWritten([last], last, p, o);
      EntryPatternsMembers(last, TriplePattern(ss.subject, p.verb, o));
    }
  }

  /** A pattern is in a block exactly if it is made of a subject, one of its verbs and one of that verb's objects. */
  lemma BlockPatternsMembers(block: TriplesBlock, tp: TriplePattern)
    ensures tp in BlockPatterns(block) <==>
      exists ss, p, o :: IsWritten(block, ss, p, o) && tp == TriplePattern(ss.subject, p.verb, o)
  {
    if tp in BlockPatterns(block) {
      var ss, p, o := PatternIsWritten(block, tp);
    }
    if ss, p, o :| IsWritten(block, ss, p, o) && tp == TriplePattern(ss.subject, p.verb, o) {
      WrittenIsPattern(block, ss, p, o);
    }
  }

  // ---- what a block means ----

  // A term stands at a position of a pattern under a mapping.
  ghost predicate StandsFor(n: Node, m: Mapping, t: Term) {
    match n
    case Fixed(c) => t == c
    case Var(v) => v in m && m[v] == t
  }

  lemma InstanceExactly(tp: TriplePattern, m: Mapping, t: Triple)
    ensures Instance(tp, m) == Some(t) <==> StandsFor(tp.s, m, t.s) && StandsFor(tp.p, m, t.p) && StandsFor(tp.o, m, t.o)
  {
  }

  /** A missing block is joined as one empty solution, a block as the join of its patterns. */
  lemma BlockMeaning(graph: Graph, block: TriplesBlock)
    ensures EvalBlock(graph, None) == [map[]]
    ensures EvalBlock(graph, Some(block)) == EvalBgp(graph, BlockPatterns(block))
  {
    hide EvalBgp, BlockPatterns;
    NoPatterns(graph);
    assert [block][..0] == [];
    assert BlocksPatterns([block]) == [] + BlockPatterns(block) == BlockPatterns(block);
  }

  lemma NoPatterns(graph: Graph)
    ensures EvalBgp(graph, []) == [map[]]
  {
  }

  // The written triple is in the graph.
  ghost predicate IsFound(graph: Graph, m: Mapping, ss: SameSubject, p: Property, o: Node) {
    exists t :: t in graph && StandsFor(ss.subject, m, t.s) && StandsFor(p.verb, m, t.p) && StandsFor(o, m, t.o)
  }

  lemma FoundIsInstance(graph: Graph, m: Mapping, ss: SameSubject, p: Property, o: Node)
    ensures IsFound(graph, m, ss, p, o) <==> exists t :: t in graph && Instance(TriplePattern(ss.subject, p.verb, o), m) == Some(t)
  {
    var tp := TriplePattern(ss.subject, p.verb, o);
    hide StandsFor, Instance;
    if IsFound(graph, m, ss, p, o) {
      var t :| t in graph && StandsFor(ss.subject, m, t.s) && StandsFor(p.verb, m, t.p) && StandsFor(o, m, t.o);
      InstanceExactly(tp, m, t);
    }
    if t :| t in graph && Instance(tp, m) == Some(t) {
      InstanceExactly(tp, m, t);
    }
  }

  /**
   The solutions of a block bind exactly its variables and turn each subject, verb and object written
   in it into a triple of the graph.
   */
  lemma BlockSolutions(graph: Graph, block: TriplesBlock, m: Mapping)
    ensures m in EvalBlock(graph, Some(block)) <==>
      && m.Keys == PatternsVars(BlockPatterns(block))
      && forall ss, p, o :: IsWritten(block, ss, p, o) ==> IsFound(graph, m, ss, p, o)
  {
    hide IsFound, IsWritten, EvalBlock, EvalBgp, BlockPatterns, PatternsVars, Instance;
    var tps := BlockPatterns(block);
    BlockMeaning(graph, block);
    BgpMembers(graph, tps, m);
    if m in EvalBlock(graph, Some(block)) {
      forall ss, p, o | IsWritten(block, ss, p, o) ensures IsFound(graph, m, ss, p, o) {
        WrittenIsPattern(block, ss, p, o);
        FoundIsInstance(graph, m, ss, p, o);
      }
    }
    if m.Keys == PatternsVars(tps) && forall ss, p, o :: IsWritten(block, ss, p, o) ==> IsFound(graph, m, ss, p, o) {
      forall tp | tp in tps ensures exists t :: t in graph && Instance(tp, m) == Some(t) {
        var ss, p, o := PatternIsWritten(block, tp);
        FoundIsInstance(graph, m, ss, p, o);
      }
    }
  }

}
