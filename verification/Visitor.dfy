/**
 The visitor that compiles a SELECT or ASK query: its mutable stacks and loops, proved to emit what
 `Emission` says for the normal form of the pattern it is given.
 */
module Visitor {
  import opened Wrappers
  import opened Sequences
  import opened Rdf
  import opened Patterns
  import opened Emission

  class SparqlQuery {
    var odg: Odg
    var projectedVariables: seq<Variable>
    var varToId: map<Variable, int>
    var triplePatterns: seq<TriplePattern>
    var distinct: bool
    var projectAllVariables: bool

    constructor ()
      ensures odg == EMPTY_ODG && varToId == map[] && triplePatterns == [] && projectedVariables == []
      ensures !distinct && !projectAllVariables
    {
      odg, varToId, triplePatterns, projectedVariables := EMPTY_ODG, map[], [], [];
      distinct, projectAllVariables := false, false;
    }
  }

  function SetTop<T>(stack: seq<T>, frame: T): (r: seq<T>)
    requires stack != []
  {
    Init(stack) + [frame]
  }

  // `after` is `before` with `frame` on top instead.
  ghost predicate TopReplaced<T>(before: seq<T>, after: seq<T>, frame: T) {
    before != [] && |after| == |before| && Init(after) == Init(before) && Last(after) == frame
  }

  class SelectAskQueryVisitor {
    const query: SparqlQuery
    var activeSubject: Node
    var activePredicate: Node
    var varId: int
    var groupPatterns: seq<seq<nat>>
    var optOperands: seq<seq<nat>>
    var unionOperands: seq<seq<nat>>
    var triplesBlocks: seq<seq<TriplesBlock>>
    var optionalBlocks: seq<seq<Group>>

    constructor (q: SparqlQuery)
      ensures query == q && varId == FIRST_VAR_ID
      ensures groupPatterns == [] && optOperands == [] && unionOperands == [] && triplesBlocks == [] && optionalBlocks == []
    {
      query := q;
      // No triple is emitted before both are set.
      activeSubject, activePredicate := Fixed(Iri("")), Fixed(Iri(""));
      varId := FIRST_VAR_ID;
      groupPatterns, optOperands, unionOperands, triplesBlocks, optionalBlocks := [], [], [], [], [];
    }

    // ---- abstract state ----

    ghost function Out(): Output
      reads this, query
    {
      Output(query.triplePatterns, query.varToId, varId, query.odg)
    }

    ghost function CurrentScope(): Scope
      reads this, query
      requires groupPatterns != []
    {
      Scope(Out(), Last(groupPatterns))
    }

    // Between leaves: frames are there, and the operands of the next leaf start from none.
    ghost predicate Ready()
      reads this
    {
      && groupPatterns != [] && triplesBlocks != [] && optionalBlocks != []
      && |optOperands| == |unionOperands|
      && (optOperands != [] ==> |groupPatterns| >= 2)
      && Last(groupPatterns) == []
    }

    ghost function CurrentWalk(): Walk
      reads this, query
      requires |optOperands| == |unionOperands|
    {
      if optOperands == [] then Walk(Out(), [], []) else Walk(Out(), Last(optOperands), Last(unionOperands))
    }

    // The operands of the parent leaf, inside an OPTIONAL.
    ghost function Parent(): Option<seq<nat>>
      reads this
      requires optOperands != [] ==> |groupPatterns| >= 2
    {
      if optOperands == [] then None else Some(groupPatterns[|groupPatterns| - 2])
    }

    // ---- variables and operands ----

    method RegisterVar(v: Variable)
      modifies this`varId, query`varToId
      ensures Out() == Register(old(Out()), v)
    {
      if v in query.varToId {
        return;
      }
      query.varToId := query.varToId[v := varId];
      varId := NextVarId(varId);
    }

    method RegisterIfVar(n: Node)
      modifies this`varId, query`varToId
      ensures Out() == RegisterNode(old(Out()), n)
    {
      if n.Var? {
        RegisterVar(n.variable);
      }
    }

    method AddDependency(source: nat, target: nat, varLabel: Option<int>)
      modifies query`odg
      ensures query.odg == old(query.odg).(dependencies := old(query.odg).dependencies + [Edge(source, target, varLabel)])
    {
      query.odg := query.odg.(dependencies := query.odg.dependencies + [Edge(source, target, varLabel)]);
    }

    method AddConnection(source: nat, target: nat)
      modifies query`odg
      ensures query.odg == old(query.odg).(connections := old(query.odg).connections + [Connection(source, target)])
    {
      query.odg := query.odg.(connections := query.odg.connections + [Connection(source, target)]);
    }

    // Both edges of a new operand with one operand of its group, once per shared variable id.
    method LinkOperands(other: nat, vId: nat, varIds: seq<int>)
      modifies query`odg
      ensures query.odg == old(query.odg).(dependencies :=
                old(query.odg).dependencies + PairEdges(other, OperandVarIds(old(query.odg).operands, other), vId, varIds))
    {
      ghost var start, shared, added := query.odg, [], [];
      var tpVars := OperandVarIds(query.odg.operands, other);
      var done: set<int> := {};
      var cart := true;
      for i := 0 to |varIds|
        invariant query.odg == Odg(start.operands, start.dependencies + added, start.connections)
        invariant shared == SharedIds(varIds[..i], tpVars) && added == LabelledBothWays(other, vId, shared)
        invariant (forall id :: id in done <==> id in shared) && (cart <==> shared == [])
      {
        var found: bool;
        done, found := LinkLabel(other, vId, varIds[i], tpVars, done);
        cart := cart && !found;
        assert varIds[..i + 1][..i] == varIds[..i];
        if varIds[i] in tpVars && varIds[i] !in shared {
          assert (shared + [varIds[i]])[..|shared|] == shared;
          AppendAssoc(start.dependencies, added, BothWays(other, vId, Some(varIds[i])));
          shared, added := shared + [varIds[i]], added + BothWays(other, vId, Some(varIds[i]));
        }
      }
      assert varIds[..|varIds|] == varIds;
      if cart {
        assert added == [];
        AddDependency(other, vId, None);
        AddDependency(vId, other, None);
      }
    }

    // One variable of the new operand against all variables of the other.
    method LinkLabel(other: nat, vId: nat, id: int, tpVars: seq<int>, done: set<int>) returns (done': set<int>, found: bool)
      modifies query`odg
      ensures found <==> id in tpVars
      ensures done' == if found then done + {id} else done
      ensures query.odg == if found && id !in done
                then old(query.odg).(dependencies := old(query.odg).dependencies + BothWays(other, vId, Some(id)))
                else old(query.odg)
    {
      done', found := done, false;
      for j := 0 to |tpVars|
        invariant found <==> id in tpVars[..j]
        invariant done' == if found then done + {id} else done
        invariant query.odg == if found && id !in done
                    then old(query.odg).(dependencies := old(query.odg).dependencies + BothWays(other, vId, Some(id)))
                    else old(query.odg)
      {
        if id == tpVars[j] {
          found := true;
          if id !in done' {
            done' := done' + {id};
            AddDependency(other, vId, Some(id));
            AddDependency(vId, other, Some(id));
          }
        }
      }
    }

    method AddTp(tp: TriplePattern)
      requires groupPatterns != [] && PatternVars(tp) <= query.varToId.Keys
      modifies this`groupPatterns, query`odg
      ensures |groupPatterns| == |old(groupPatterns)| && Init(groupPatterns) == old(Init(groupPatterns))
      ensures query.triplePatterns == old(query.triplePatterns)
      ensures Scope(Out().(patterns := old(query.triplePatterns) + [tp]), Last(groupPatterns)) == AddPattern(old(CurrentScope()), tp)
    {
      hide PairEdges;
      var varIds: seq<int> := [];
      var nodes := Nodes(tp);
      for k := 0 to |nodes|
        invariant varIds == NodesIds(query.varToId, nodes[..k])
      {
        assert nodes[..k + 1][..k] == nodes[..k];
        if nodes[k].Var? {
          varIds := varIds + [query.varToId[nodes[k].variable]];
        }
      }
      assert nodes[..|nodes|] == nodes;
      var vId := OperandId(|query.odg.operands|);
      query.odg := query.odg.(operands := query.odg.operands + [varIds]);
      var gp := Last(groupPatterns);
      ghost var start := query.odg;
      var k := |gp|;
      while k > 0
        modifies query`odg
        invariant 0 <= k <= |gp|
        invariant query.odg == start.(dependencies := start.dependencies + GroupEdges(start.operands, gp[k..], vId, varIds))
      {
        k := k - 1;
        assert gp[k..][1..] == gp[k + 1..];
        LinkOperands(gp[k], vId, varIds);
      }
      assert gp[0..] == gp;
      groupPatterns := SetTop(groupPatterns, gp + [vId]);
    }

    method GroupDependencies(prevGroup: seq<nat>, curGroup: seq<nat>, bidirectional: bool)
      modifies query`odg
      ensures query.odg == old(query.odg).(dependencies :=
                old(query.odg).dependencies + EdgesBetween(old(query.odg).operands, prevGroup, curGroup, bidirectional))
    {
      ghost var start, added := query.odg, [];
      for i := 0 to |prevGroup|
        invariant added == EdgesBetween(start.operands, prevGroup[..i], curGroup, bidirectional)
        invariant query.odg == Odg(start.operands, start.dependencies + added, start.connections)
      {
        ghost var more := EdgesToGroup(start.operands, prevGroup[i], curGroup, bidirectional);
        EdgesBetweenStep(start.operands, prevGroup, i, curGroup, bidirectional);
        DependOnGroup(prevGroup[i], curGroup, bidirectional);
        AppendAssoc(start.dependencies, added, more);
        added := added + more;
      }
      assert prevGroup[..|prevGroup|] == prevGroup;
    }

    // The edges from one operand of the previous group to the whole current group.
    method DependOnGroup(prevTp: nat, curGroup: seq<nat>, bidirectional: bool)
      modifies query`odg
      ensures query.odg == old(query.odg).(dependencies :=
                old(query.odg).dependencies + EdgesToGroup(old(query.odg).operands, prevTp, curGroup, bidirectional))
    {
      ghost var start, added := query.odg, [];
      for j := 0 to |curGroup|
        invariant added == EdgesToGroup(start.operands, prevTp, curGroup[..j], bidirectional)
        invariant query.odg == Odg(start.operands, start.dependencies + added, start.connections)
      {
        ghost var more := DependencyEdges(start.operands, prevTp, curGroup[j], bidirectional);
        DependOn(prevTp, curGroup[j], bidirectional);
        AppendAssoc(start.dependencies, added, more);
        added := added + more;
        assert curGroup[..j + 1][..j] == curGroup[..j];
      }
      assert curGroup[..|curGroup|] == curGroup;
    }

    // The edges from one operand of the previous group to one of the current group.
    method DependOn(prevTp: nat, curTp: nat, bidirectional: bool)
      modifies query`odg
      ensures query.odg == old(query.odg).(dependencies :=
                old(query.odg).dependencies + DependencyEdges(old(query.odg).operands, prevTp, curTp, bidirectional))
    {
      ghost var start := query.odg;
      var prevLabels, curLabels := OperandVarIds(query.odg.operands, prevTp), OperandVarIds(query.odg.operands, curTp);
      var done := false;
      for k := 0 to |prevLabels|
        invariant query.odg == start.(dependencies := start.dependencies + LabelledEdges(prevTp, prevLabels[..k],
            curTp, curLabels, bidirectional))
        invariant done <==> LabelledEdges(prevTp, prevLabels[..k], curTp, curLabels, bidirectional) != []
      {
        assert prevLabels[..k + 1][..k] == prevLabels[..k];
        if prevLabels[k] in curLabels {
          AddDependency(prevTp, curTp, Some(prevLabels[k]));
          if bidirectional {
            AddDependency(curTp, prevTp, Some(prevLabels[k]));
          }
          done := true;
        }
      }
      assert prevLabels[..|prevLabels|] == prevLabels;
      if !done {
        AddDependency(prevTp, curTp, None);
        if bidirectional {
          AddDependency(curTp, prevTp, None);
        }
      }
    }

    // ---- triples blocks ----

    method VisitObject(obj: Node)
      requires groupPatterns != []
      requires NodeVars(activeSubject) + NodeVars(activePredicate) <= query.varToId.Keys
      modifies this`varId, this`groupPatterns, query`varToId, query`triplePatterns, query`odg
      ensures |groupPatterns| == |old(groupPatterns)| && Init(groupPatterns) == old(Init(groupPatterns))
      ensures query.varToId.Keys >= old(query.varToId.Keys)
      ensures CurrentScope() == EmitPattern(old(CurrentScope()), TriplePattern(activeSubject, activePredicate, obj))
    {
      RegisterIfVar(obj);
      var tp := TriplePattern(activeSubject, activePredicate, obj);
      query.triplePatterns := query.triplePatterns + [tp];
      AddTp(tp);
    }

    method VisitObjectList(objects: seq<Node>)
      requires groupPatterns != []
      requires NodeVars(activeSubject) + NodeVars(activePredicate) <= query.varToId.Keys
      modifies this`varId, this`groupPatterns, query`varToId, query`triplePatterns, query`odg
      ensures |groupPatterns| == |old(groupPatterns)| && Init(groupPatterns) == old(Init(groupPatterns))
      ensures query.varToId.Keys >= old(query.varToId.Keys)
      ensures CurrentScope() == EmitPatterns(old(CurrentScope()), ObjectPatterns(activeSubject, activePredicate, objects))
    {
      for i := 0 to |objects|
        invariant |groupPatterns| == |old(groupPatterns)| && Init(groupPatterns) == old(Init(groupPatterns))
        invariant query.varToId.Keys >= old(query.varToId.Keys)
        invariant CurrentScope() == EmitPatterns(old(CurrentScope()), ObjectPatterns(activeSubject, activePredicate, objects[..i]))
      {
        VisitObject(objects[i]);
        assert objects[..i + 1][..i] == objects[..i];
        ghost var tps := ObjectPatterns(activeSubject, activePredicate, objects[..i]);
        ghost var tp := TriplePattern(activeSubject, activePredicate, objects[i]);
        assert (tps + [tp])[..|tps|] == tps;
      }
      assert objects[..|objects|] == objects;
    }

    method VisitPropertyList(ss: SameSubject)
      requires groupPatterns != [] && NodeVars(activeSubject) <= query.varToId.Keys && activeSubject == ss.subject
      modifies this`varId, this`groupPatterns, this`activePredicate, query`varToId, query`triplePatterns, query`odg
      ensures |groupPatterns| == |old(groupPatterns)| && Init(groupPatterns) == old(Init(groupPatterns))
      ensures query.varToId.Keys >= old(query.varToId.Keys)
      ensures CurrentScope() == EmitPatterns(old(CurrentScope()), PropertyPatterns(ss.subject, Properties(ss)))
    {
      var properties := Properties(ss);
      ghost var start, reached := CurrentScope(), CurrentScope();
      for i := 0 to |properties|
        invariant |groupPatterns| == |old(groupPatterns)| && Init(groupPatterns) == old(Init(groupPatterns))
        invariant query.varToId.Keys >= old(query.varToId.Keys)
        invariant CurrentScope() == reached
        invariant reached == EmitPatterns(start, PropertyPatterns(ss.subject, properties[..i]))
      {
        EmitProperty(start, ss.subject, properties, i);
        VisitProperty(properties[i]);
        reached := EmitPatterns(reached, ObjectPatterns(ss.subject, properties[i].verb, Objects(properties[i])));
      }
      assert properties[..|properties|] == properties;
    }

    method VisitProperty(property: Property)
      requires groupPatterns != [] && NodeVars(activeSubject) <= query.varToId.Keys
      modifies this`varId, this`groupPatterns, this`activePredicate, query`varToId, query`triplePatterns, query`odg
      ensures |groupPatterns| == |old(groupPatterns)| && Init(groupPatterns) == old(Init(groupPatterns))
      ensures query.varToId.Keys >= old(query.varToId.Keys)
      ensures CurrentScope() == EmitPatterns(old(CurrentScope()), ObjectPatterns(activeSubject, property.verb, Objects(property)))
    {
      ghost var start := CurrentScope();
      RegisterIfVar(property.verb);
      activePredicate := property.verb;
      ObjectPatternsFirst(activeSubject, property.verb, Objects(property));
      RegisterEarly(start, CurrentScope().out, ObjectPatterns(activeSubject, property.verb, Objects(property)));
      VisitObjectList(Objects(property));
    }

    method VisitSameSubject(ss: SameSubject)
      requires groupPatterns != []
      modifies this`varId, this`groupPatterns, this`activeSubject, this`activePredicate, query`varToId, query`triplePatterns, query`odg
      ensures |groupPatterns| == |old(groupPatterns)| && Init(groupPatterns) == old(Init(groupPatterns))
      ensures CurrentScope() == EmitPatterns(old(CurrentScope()), PropertyPatterns(ss.subject, Properties(ss)))
    {
      ghost var start := CurrentScope();
      activeSubject := ss.subject;
      RegisterIfVar(activeSubject);
      PropertyPatternsFirst(ss.subject, Properties(ss));
      RegisterEarly(start, CurrentScope().out, PropertyPatterns(ss.subject, Properties(ss)));
      VisitPropertyList(ss);
    }

    method VisitTriplesBlock(block: TriplesBlock)
      requires groupPatterns != []
      modifies this`varId, this`groupPatterns, this`activeSubject, this`activePredicate, query`varToId, query`triplePatterns, query`odg
      ensures |groupPatterns| == |old(groupPatterns)| && Init(groupPatterns) == old(Init(groupPatterns))
      ensures CurrentScope() == EmitPatterns(old(CurrentScope()), BlockPatterns(block))
    {
      for i := 0 to |block|
        invariant |groupPatterns| == |old(groupPatterns)| && Init(groupPatterns) == old(Init(groupPatterns))
        invariant CurrentScope() == EmitPatterns(old(CurrentScope()), BlockPatterns(block[..i]))
      {
        VisitSameSubject(block[i]);
        assert block[..i + 1][..i] == block[..i];
        EmitPatternsConcat(old(CurrentScope()), BlockPatterns(block[..i]), PropertyPatterns(block[i].subject, Properties(block[i])));
      }
      assert block[..|block|] == block;
    }

    // ---- group graph patterns ----

    // One pass over a group: its triples blocks and optionals go to the top frames, its unions to
    // the list of pending ones.
    method CollectEntries(ctx: Group, gouCtxs: seq<GroupOrUnion>) returns (gous: seq<GroupOrUnion>)
      requires triplesBlocks != [] && optionalBlocks != []
      modifies this`triplesBlocks, this`optionalBlocks
      ensures gous == gouCtxs + Unions(ctx)
      ensures TopReplaced(old(triplesBlocks), triplesBlocks, old(Last(triplesBlocks)) + Triples(ctx))
      ensures TopReplaced(old(optionalBlocks), optionalBlocks, old(Last(optionalBlocks)) + Optionals(ctx))
    {
      ghost var tbs, opts := Last(triplesBlocks), Last(optionalBlocks);
      gous := gouCtxs;
      if ctx.triplesBlock.Some? {
        PushTriplesBlock(ctx.triplesBlock.value);
      }
      AppendNothing(tbs, opts, gous);
      for i := 0 to |ctx.subs|
        modifies this`triplesBlocks, this`optionalBlocks
        invariant gous == gouCtxs + UnionsOf(ctx.subs[..i])
        invariant TopReplaced(old(triplesBlocks), triplesBlocks, tbs + TriplesOf(ctx.triplesBlock, ctx.subs[..i]))
        invariant TopReplaced(old(optionalBlocks), optionalBlocks, opts + OptionalsOf(ctx.subs[..i]))
      {
        gous := CollectEntry(ctx.subs[i], gous);
        CollectNext(ctx.triplesBlock, ctx.subs, i, tbs, opts, gouCtxs);
      }
      assert ctx.subs[..|ctx.subs|] == ctx.subs;
    }

    method CollectEntry(sub: Sub, gouCtxs: seq<GroupOrUnion>) returns (gous: seq<GroupOrUnion>)
      requires triplesBlocks != [] && optionalBlocks != []
      modifies this`triplesBlocks, this`optionalBlocks
      ensures gous == gouCtxs + UnionsIn(sub)
      ensures TopReplaced(old(triplesBlocks), triplesBlocks, old(Last(triplesBlocks)) + BlockList(sub.triplesBlock))
      ensures TopReplaced(old(optionalBlocks), optionalBlocks, old(Last(optionalBlocks)) + OptionalsIn(sub))
    {
      gous := gouCtxs;
      AppendNothing(Last(triplesBlocks), Last(optionalBlocks), gous);
      match sub.pattern {
        case UnionPattern(gou) =>
          gous := gous + [gou];
        case OptionalPattern(group) =>
          PushOptional(group);
      }
      if sub.triplesBlock.Some? {
        PushTriplesBlock(sub.triplesBlock.value);
      }
    }

    method PushTriplesBlock(block: TriplesBlock)
      requires triplesBlocks != []
      modifies this`triplesBlocks
      ensures TopReplaced(old(triplesBlocks), triplesBlocks, old(Last(triplesBlocks)) + [block])
    {
      triplesBlocks := SetTop(triplesBlocks, Last(triplesBlocks) + [block]);
    }

    method PushOptional(group: Group)
      requires optionalBlocks != []
      modifies this`optionalBlocks
      ensures TopReplaced(old(optionalBlocks), optionalBlocks, old(Last(optionalBlocks)) + [group])
    {
      optionalBlocks := SetTop(optionalBlocks, Last(optionalBlocks) + [group]);
    }

    method PushOperand(op: nat)
      requires optOperands != [] && unionOperands != []
      modifies this`optOperands, this`unionOperands
      ensures TopReplaced(old(optOperands), optOperands, old(Last(optOperands)) + [op])
      ensures TopReplaced(old(unionOperands), unionOperands, old(Last(unionOperands)) + [op])
    {
      unionOperands := SetTop(unionOperands, Last(unionOperands) + [op]);
      optOperands := SetTop(optOperands, Last(optOperands) + [op]);
    }

    // The triple patterns of a leaf and, inside an OPTIONAL, its edges to the parent leaf and to
    // the earlier optionals of that leaf.
    method EnterGroup()
      requires Ready()
      modifies this`varId, this`groupPatterns, this`activeSubject, this`activePredicate, this`optOperands,
          this`unionOperands, query`varToId, query`triplePatterns, query`odg
      ensures |groupPatterns| == |old(groupPatterns)| && Init(groupPatterns) == old(Init(groupPatterns))
      ensures |optOperands| == |old(optOperands)| == |unionOperands|
      ensures optOperands != [] ==> Init(optOperands) == old(Init(optOperands)) && Init(unionOperands) == old(Init(unionOperands))
      ensures (CurrentWalk(), Last(groupPatterns)) == EnterLeaf(BlocksPatterns(Last(triplesBlocks)), old(Parent()), old(CurrentWalk()))
    {
      ghost var walk, parent := CurrentWalk(), Parent();
      ghost var s := EmitPatterns(Scope(walk.out, []), BlocksPatterns(Last(triplesBlocks)));
      VisitBlocks(Last(triplesBlocks));
      assert Scope(Out(), Last(groupPatterns)) == s;
      assert CurrentWalk() == walk.(out := s.out);
      if optOperands != [] {
        SecondFromTop(old(groupPatterns), groupPatterns);
        LinkToParent();
      }
    }

    method VisitBlocks(blocks: seq<TriplesBlock>)
      requires groupPatterns != []
      modifies this`varId, this`groupPatterns, this`activeSubject, this`activePredicate, query`varToId, query`triplePatterns, query`odg
      ensures |groupPatterns| == |old(groupPatterns)| && Init(groupPatterns) == old(Init(groupPatterns))
      ensures CurrentScope() == EmitPatterns(old(CurrentScope()), BlocksPatterns(blocks))
    {
      for i := 0 to |blocks|
        invariant |groupPatterns| == |old(groupPatterns)| && Init(groupPatterns) == old(Init(groupPatterns))
        invariant CurrentScope() == EmitPatterns(old(CurrentScope()), BlocksPatterns(blocks[..i]))
      {
        VisitTriplesBlock(blocks[i]);
        assert blocks[..i + 1][..i] == blocks[..i];
        EmitPatternsConcat(old(CurrentScope()), BlocksPatterns(blocks[..i]), BlockPatterns(blocks[i]));
      }
      assert blocks[..|blocks|] == blocks;
    }

    method LinkToParent()
      requires |groupPatterns| >= 2 && optOperands != [] && |optOperands| == |unionOperands|
      modifies this`optOperands, this`unionOperands, query`odg
      ensures |optOperands| == |old(optOperands)| == |unionOperands|
      ensures Init(optOperands) == old(Init(optOperands)) && Init(unionOperands) == old(Init(unionOperands))
      ensures CurrentWalk() == LinkOptional(old(CurrentWalk()), groupPatterns[|groupPatterns| - 2], Last(groupPatterns))
    {
      var group := Last(groupPatterns);
      GroupDependencies(groupPatterns[|groupPatterns| - 2], group, false);
      ConnectSiblings(group);
      PushOperands(group);
    }

    method PushOperands(group: seq<nat>)
      requires optOperands != [] && unionOperands != []
      modifies this`optOperands, this`unionOperands
      ensures TopReplaced(old(optOperands), optOperands, old(Last(optOperands)) + group)
      ensures TopReplaced(old(unionOperands), unionOperands, old(Last(unionOperands)) + group)
    {
      ghost var opts, union := Last(optOperands), Last(unionOperands);
      AppendNothing(opts, union, group);
      for i := 0 to |group|
        invariant TopReplaced(old(optOperands), optOperands, opts + group[..i])
        invariant TopReplaced(old(unionOperands), unionOperands, union + group[..i])
      {
        PushOperand(group[i]);
        AppendNext(opts, group, i);
        AppendNext(union, group, i);
      }
      assert group[..|group|] == group;
    }

    method ConnectSiblings(group: seq<nat>)
      requires optOperands != [] && |optOperands| == |unionOperands|
      modifies query`odg
      ensures query.odg == old(query.odg).(connections :=
                old(query.odg).connections + ConnectionsBetween(group, Last(optOperands), Last(unionOperands)))
    {
      ghost var start, added := query.odg, [];
      var opts, union := Last(optOperands), Last(unionOperands);
      for i := 0 to |group|
        invariant added == ConnectionsBetween(group[..i], opts, union)
        invariant query.odg == Odg(start.operands, start.dependencies, start.connections + added)
      {
        Connect(group[i], opts, union);
        AppendAssoc(start.connections, added, ConnectionsOf(group[i], opts, union));
        added := added + ConnectionsOf(group[i], opts, union);
        assert group[..i + 1][..i] == group[..i];
      }
      assert group[..|group|] == group;
    }

    method Connect(curOp: nat, opts: seq<nat>, union: seq<nat>)
      modifies query`odg
      ensures query.odg == old(query.odg).(connections := old(query.odg).connections + ConnectionsOf(curOp, opts, union))
    {
      ghost var start := query.odg;
      for j := 0 to |opts|
        invariant query.odg == start.(connections := start.connections + ConnectionsOf(curOp, opts[..j], union))
      {
        if opts[j] !in union {
          AddConnection(curOp, opts[j]);
          AddConnection(opts[j], curOp);
        }
        assert opts[..j + 1][..j] == opts[..j];
      }
      assert opts[..|opts|] == opts;
    }

    /**
     Compiles `ctx` next to the unions still to be distributed. Whatever the stacks hold, the call
     emits the leaves of `Expand`, leaves every lower frame alone, and only extends the top frames
     of blocks by the entries of `ctx` itself.
     */
    method VisitWellDesignedPattern(ctx: Group, gouCtxs: seq<GroupOrUnion>)
      requires Ready()
      modifies this, query`varToId, query`triplePatterns, query`odg
      ensures Ready()
      ensures groupPatterns == old(groupPatterns)
      ensures TopReplaced(old(triplesBlocks), triplesBlocks, old(Last(triplesBlocks)) + Triples(ctx))
      ensures TopReplaced(old(optionalBlocks), optionalBlocks, old(Last(optionalBlocks)) + Optionals(ctx))
      ensures |optOperands| == |old(optOperands)|
      ensures optOperands != [] ==> Init(optOperands) == old(Init(optOperands)) && Init(unionOperands) == old(Init(unionOperands))
      ensures CurrentWalk() == WalkLeaves(Expand(ctx, gouCtxs, old(Last(triplesBlocks)), old(Last(optionalBlocks))),
                                          old(Parent()), old(CurrentWalk()))
      decreases PendingSize(ctx, gouCtxs, Last(optionalBlocks)), 1
    {
      CollectedIsSmaller(ctx, gouCtxs, Last(optionalBlocks));
      var gous := CollectEntries(ctx, gouCtxs);
      if gous == [] {
        VisitLeaf();
        WalkSingle(Leaf(BlocksPatterns(Last(triplesBlocks)), NormalizeAll(Last(optionalBlocks))), old(Parent()), old(CurrentWalk()));
      } else {
        VisitAlternatives(Last(gous), Init(gous));
      }
    }

    // Each alternative in turn, with the frames reset to the blocks that were there before it.
    method VisitAlternatives(cur: GroupOrUnion, gous: seq<GroupOrUnion>)
      requires Ready()
      modifies this, query`varToId, query`triplePatterns, query`odg
      ensures Ready()
      ensures groupPatterns == old(groupPatterns) && triplesBlocks == old(triplesBlocks) && optionalBlocks == old(optionalBlocks)
      ensures |optOperands| == |old(optOperands)|
      ensures optOperands != [] ==> Init(optOperands) == old(Init(optOperands)) && Init(unionOperands) == old(Init(unionOperands))
      ensures CurrentWalk() == WalkLeaves(ExpandAll(cur.alternatives, gous, old(Last(triplesBlocks)),
                                                    old(Last(optionalBlocks))), old(Parent()), old(CurrentWalk()))
      decreases GroupsSize(cur.alternatives) + GousSize(gous) + GroupsSize(Last(optionalBlocks)), 3
    {
      hide Expand, CurrentWalk, Parent;
      ghost var tbs, opts, parent, walk := Last(triplesBlocks), Last(optionalBlocks), Parent(), CurrentWalk();
      ghost var reached := walk;
      var alternatives := cur.alternatives;
      for i := 0 to |alternatives|
        invariant Ready()
        invariant groupPatterns == old(groupPatterns) && triplesBlocks == old(triplesBlocks) && optionalBlocks == old(optionalBlocks)
        invariant |optOperands| == |old(optOperands)|
        invariant optOperands != [] ==> Init(optOperands) == old(Init(optOperands)) && Init(unionOperands) == old(Init(unionOperands))
        invariant Parent() == parent && CurrentWalk() == reached
        invariant reached == WalkLeaves(ExpandAll(alternatives[..i], gous, tbs, opts), parent, walk)
      {
        GroupsSizeMember(alternatives, i);
        WalkAlternative(alternatives, i, gous, tbs, opts, parent, walk);
        VisitAlternative(alternatives[i], gous);
        reached := WalkLeaves(Expand(alternatives[i], gous, tbs, opts), parent, reached);
      }
      assert alternatives[..|alternatives|] == alternatives;
    }

    method VisitAlternative(ctx: Group, gous: seq<GroupOrUnion>)
      requires Ready()
      modifies this, query`varToId, query`triplePatterns, query`odg
      ensures Ready()
      ensures groupPatterns == old(groupPatterns) && triplesBlocks == old(triplesBlocks) && optionalBlocks == old(optionalBlocks)
      ensures Parent() == old(Parent())
      ensures |optOperands| == |old(optOperands)|
      ensures optOperands != [] ==> Init(optOperands) == old(Init(optOperands)) && Init(unionOperands) == old(Init(unionOperands))
      ensures CurrentWalk() == WalkLeaves(Expand(ctx, gous, old(Last(triplesBlocks)), old(Last(optionalBlocks))),
                                          old(Parent()), old(CurrentWalk()))
      decreases PendingSize(ctx, gous, Last(optionalBlocks)), 2
    {
      var currentTbs, currentOpts := |Last(triplesBlocks)|, |Last(optionalBlocks)|;
      VisitWellDesignedPattern(ctx, gous);
      triplesBlocks := SetTop(triplesBlocks, Last(triplesBlocks)[..currentTbs]);
      optionalBlocks := SetTop(optionalBlocks, Last(optionalBlocks)[..currentOpts]);
      TopRestored(old(triplesBlocks), triplesBlocks);
      TopRestored(old(optionalBlocks), optionalBlocks);
    }

    // All triples blocks collected in the top frame, then all its optionals.
    method VisitLeaf()
      requires Ready()
      modifies this, query`varToId, query`triplePatterns, query`odg
      ensures Ready()
      ensures groupPatterns == old(groupPatterns)
      ensures unchanged(this`triplesBlocks, this`optionalBlocks)
      ensures |optOperands| == |old(optOperands)|
      ensures optOperands != [] ==> Init(optOperands) == old(Init(optOperands)) && Init(unionOperands) == old(Init(unionOperands))
      ensures CurrentWalk() == WalkLeaf(Leaf(BlocksPatterns(Last(triplesBlocks)), NormalizeAll(Last(optionalBlocks))),
                                        old(Parent()), old(CurrentWalk()))
      decreases GroupsSize(Last(optionalBlocks)), 4
    {
      hide EnterLeaf, WalkOptionals, NormalizeAll, BlocksPatterns, GroupsSize, Parent;
      EnterGroup();
      ghost var entered, group := CurrentWalk(), Last(groupPatterns);
      optOperands := optOperands + [[]];
      unionOperands := unionOperands + [[]];
      VisitOptionals();
      unionOperands := Init(unionOperands);
      optOperands := Init(optOperands);
      groupPatterns := SetTop(groupPatterns, []);
    }

    method VisitOptionals()
      requires groupPatterns != [] && triplesBlocks != [] && optionalBlocks != []
      requires |optOperands| == |unionOperands| && optOperands != [] && Last(optOperands) == [] && Last(unionOperands) == []
      modifies this, query`varToId, query`triplePatterns, query`odg
      ensures unchanged(this`groupPatterns, this`triplesBlocks, this`optionalBlocks)
      ensures |optOperands| == |old(optOperands)| == |unionOperands|
      ensures Init(optOperands) == old(Init(optOperands)) && Init(unionOperands) == old(Init(unionOperands))
      ensures CurrentWalk() == WalkOptionals(NormalizeAll(Last(optionalBlocks)), Last(groupPatterns), old(CurrentWalk()))
      decreases GroupsSize(Last(optionalBlocks)), 3
    {
      var opts := Last(optionalBlocks);
      for i := 0 to |opts|
        invariant groupPatterns == old(groupPatterns) && triplesBlocks == old(triplesBlocks) && optionalBlocks == old(optionalBlocks)
        invariant |optOperands| == |old(optOperands)| == |unionOperands|
        invariant Init(optOperands) == old(Init(optOperands)) && Init(unionOperands) == old(Init(unionOperands))
        invariant CurrentWalk() == WalkOptionals(NormalizeAll(opts[..i]), Last(groupPatterns), old(CurrentWalk()))
        invariant Last(unionOperands) == []
      {
        GroupsSizeMember(opts, i);
        VisitOptional(opts[i]);
        WalkOptional(opts, i, Last(groupPatterns), old(CurrentWalk()));
      }
      assert opts[..|opts|] == opts;
    }

    method VisitOptional(ctx: Group)
      requires groupPatterns != [] && triplesBlocks != [] && optionalBlocks != []
      requires |optOperands| == |unionOperands| && optOperands != []
      modifies this, query`varToId, query`triplePatterns, query`odg
      ensures groupPatterns == old(groupPatterns) && triplesBlocks == old(triplesBlocks) && optionalBlocks == old(optionalBlocks)
      ensures |optOperands| == |old(optOperands)| == |unionOperands|
      ensures Init(optOperands) == old(Init(optOperands)) && Init(unionOperands) == old(Init(unionOperands))
      ensures CurrentWalk() == WalkLeaves(Expand(ctx, [], [], []), Some(Last(groupPatterns)), old(CurrentWalk())).(union := [])
      decreases GroupSize(ctx), 2
    {
      groupPatterns := groupPatterns + [[]];
      triplesBlocks := triplesBlocks + [[]];
      optionalBlocks := optionalBlocks + [[]];
      assert Parent() == Some(old(Last(groupPatterns)));
      assert CurrentWalk() == old(CurrentWalk());
      VisitWellDesignedPattern(ctx, []);
      unionOperands := SetTop(unionOperands, []);
      optionalBlocks := Init(optionalBlocks);
      triplesBlocks := Init(triplesBlocks);
      groupPatterns := Init(groupPatterns);
    }

    // ---- queries ----

    method VisitWhereClause(group: Group)
      requires groupPatterns == [] && optOperands == [] && unionOperands == [] && triplesBlocks == [] && optionalBlocks == []
      modifies this, query`varToId, query`triplePatterns, query`odg
      ensures groupPatterns == [] && optOperands == [] && unionOperands == [] && triplesBlocks == [] && optionalBlocks == []
      ensures Out() == WalkLeaves(Normalize(group).leaves, None, Walk(old(Out()), [], [])).out
    {
      groupPatterns := groupPatterns + [[]];
      triplesBlocks := triplesBlocks + [[]];
      optionalBlocks := optionalBlocks + [[]];
      VisitWellDesignedPattern(group, []);
      optionalBlocks := Init(optionalBlocks);
      triplesBlocks := Init(triplesBlocks);
      groupPatterns := Init(groupPatterns);
    }

    // SELECT *: the named variables of the triple patterns, each once, by first occurrence.
    method ProjectAll()
      modifies query`projectAllVariables, query`projectedVariables
      ensures query.projectAllVariables
      ensures query.projectedVariables == old(query.projectedVariables) + NamedVariables(query.triplePatterns)
      ensures old(query.projectedVariables) == [] ==>
        && NoDuplicates(query.projectedVariables)
        && forall v :: v in query.projectedVariables <==> !v.anonymous && v in PatternsVars(query.triplePatterns)
    {
      NamedVariablesExact(query.triplePatterns);
      hide NoDuplicates, PatternsVars;
      query.projectAllVariables := true;
      ghost var start := query.projectedVariables;
      var seenVars: set<Variable> := {};
      var tps := query.triplePatterns;
      assert start + [] == start;
      for i := 0 to |tps|
        modifies query`projectedVariables
        invariant query.projectedVariables == start + NamedVariables(tps[..i])
        invariant forall v :: v in seenVars <==> v in NamedVariables(tps[..i])
      {
        var nodes := Nodes(tps[i]);
        ghost var before := NamedVariables(tps[..i]);
        for j := 0 to |nodes|
          invariant query.projectedVariables == start + AddNamed(before, nodes[..j])
          invariant forall v :: v in seenVars <==> v in AddNamed(before, nodes[..j])
        {
          assert nodes[..j + 1][..j] == nodes[..j];
          if nodes[j].Var? && !nodes[j].variable.anonymous {
            var v := nodes[j].variable;
            if v !in seenVars {
              seenVars := seenVars + {v};
              AppendAssoc(start, AddNamed(before, nodes[..j]), [v]);
              query.projectedVariables := query.projectedVariables + [v];
            }
          }
        }
        assert nodes[..|nodes|] == nodes;
        assert tps[..i + 1][..i] == tps[..i];
      }
      assert tps[..|tps|] == tps;
    }

    method VisitSelectClause(select: SelectClause) returns (error: Option<QueryError>)
      requires query.projectedVariables == []
      modifies this`varId, query`varToId, query`distinct, query`projectAllVariables, query`projectedVariables
      ensures query.distinct == (old(query.distinct) || select.distinct)
      ensures error == ProjectionError(query.triplePatterns, select)
      ensures error.None? ==> query.projectedVariables == Projection(query.triplePatterns, select)
      ensures error.None? && !select.asterisk ==>
        && |query.projectedVariables| == |select.items|
        && forall i :: 0 <= i < |select.items| ==> select.items[i] == SelectVariable(query.projectedVariables[i])
      ensures error.None? ==> Out() == if select.asterisk then old(Out()) else RegisterItems(old(Out()), select.items)
    {
      hide NoDuplicates, PatternsVars, NamedVariables, Register, AddNamed;
      if select.distinct {
        query.distinct := true;
      }
      if select.asterisk {
        ProjectAll();
      } else {
        var items := select.items;
        for i := 0 to |items|
          modifies this`varId, query`varToId, query`projectedVariables
          invariant forall k :: 0 <= k < i ==> items[k].SelectVariable?
          invariant query.projectedVariables == ItemVariables(items[..i])
          invariant Out() == RegisterItems(old(Out()), items[..i])
        {
          assert items[..i + 1][..i] == items[..i];
          if items[i].SelectVariable? {
            RegisterVar(items[i].variable);
            query.projectedVariables := query.projectedVariables + [items[i].variable];
          } else {
            return Some(ExpressionInSelect);
          }
        }
        assert items[..|items|] == items;
        ItemVariablesAt(items);
      }
      if query.projectedVariables == [] {
        return Some(NothingProjected);
      }
      return None;
    }

    /** A whole SELECT query, from a fresh visitor and query object. */
    method VisitSelectQuery(whereClause: Option<Group>, select: SelectClause) returns (error: Option<QueryError>)
      requires groupPatterns == [] && optOperands == [] && unionOperands == [] && triplesBlocks == [] && optionalBlocks == []
      requires Out() == EMPTY_OUTPUT && query.projectedVariables == [] && !query.distinct
      modifies this, query
      ensures whereClause.None? ==> error == Some(NoWhereClause)
      ensures whereClause.Some? ==>
        var emitted := Emit(Normalize(whereClause.value));
        && error == ProjectionError(emitted.patterns, select)
        && (error.None? ==>
            && query.distinct == select.distinct
            && query.projectedVariables == Projection(emitted.patterns, select)
            && Out() == if select.asterisk then emitted else RegisterItems(emitted, select.items))
    {
      if whereClause.None? {
        return Some(NoWhereClause);
      }
      VisitWhereClause(whereClause.value);
      error := VisitSelectClause(select);
    }

    method VisitAskQuery(whereClause: Option<Group>) returns (error: Option<QueryError>)
      requires groupPatterns == [] && optOperands == [] && unionOperands == [] && triplesBlocks == [] && optionalBlocks == []
      requires Out() == EMPTY_OUTPUT
      modifies this, query
      ensures error == if whereClause.None? then Some(NoWhereClause) else None
      ensures whereClause.Some? ==> Out() == Emit(Normalize(whereClause.value))
    {
      if whereClause.None? {
        return Some(NoWhereClause);
      }
      VisitWhereClause(whereClause.value);
      return None;
    }

  }

  // The parser's entry point: a fresh query object, filled by a fresh visitor.
  method ParseSelect(whereClause: Option<Group>, select: SelectClause) returns (query: SparqlQuery, error: Option<QueryError>)
    ensures fresh(query)
    ensures whereClause.None? ==> error == Some(NoWhereClause)
    ensures whereClause.Some? ==>
      var emitted := Emit(Normalize(whereClause.value));
      && error == ProjectionError(emitted.patterns, select)
      && (error.None? ==>
          && query.distinct == select.distinct
          && query.projectedVariables == Projection(emitted.patterns, select)
          && query.triplePatterns == emitted.patterns
          && query.odg == emitted.odg
          && (select.asterisk ==>
                && NoDuplicates(query.projectedVariables)
                && forall v :: v in query.projectedVariables <==> !v.anonymous && v in PatternsVars(query.triplePatterns))
          && (!select.asterisk ==>
                && |query.projectedVariables| == |select.items|
                && forall i :: 0 <= i < |select.items| ==> select.items[i] == SelectVariable(query.projectedVariables[i]))
          && query.varToId == if select.asterisk then emitted.varIds else RegisterItems(emitted, select.items).varIds)
    ensures whereClause.Some? ==>
      var patterns := Emit(Normalize(whereClause.value)).patterns;
      && (error == Some(ExpressionInSelect) <==> !select.asterisk && SelectExpression in select.items)
      && (error == Some(NothingProjected) <==>
            if select.asterisk then forall v :: v in PatternsVars(patterns) ==> v.anonymous else select.items == [])
  {
    query := new SparqlQuery();
    var visitor := new SelectAskQueryVisitor(query);
    error := visitor.VisitSelectQuery(whereClause, select);
    if whereClause.Some? {
      ProjectionErrorExactly(Emit(Normalize(whereClause.value)).patterns, select);
      NamedVariablesExact(Emit(Normalize(whereClause.value)).patterns);
    }
    if error.None? && !select.asterisk {
      RegisterItemsKeeps(Emit(Normalize(whereClause.value)), select.items);
      ItemVariablesAt(select.items);
    }
  }

  lemma {:induction false} RegisterItemsKeeps(out: Output, items: seq<SelectItem>)
    requires OnlyVariables(items)
    ensures RegisterItems(out, items).patterns == out.patterns && RegisterItems(out, items).odg == out.odg
  {
    if items != [] {
      RegisterItemsKeeps(out, items[..|items| - 1]);
    }
  }

  // ---- projection ----

  datatype SelectItem = SelectVariable(variable: Variable) | SelectExpression

  datatype SelectClause = SelectClause(distinct: bool, asterisk: bool, items: seq<SelectItem>)

  datatype QueryError = NoWhereClause | ExpressionInSelect | NothingProjected

  function AddNamed(vars: seq<Variable>, nodes: seq<Node>): seq<Variable> {
    if nodes == [] then vars
    else
      var before, last := AddNamed(vars, nodes[..|nodes| - 1]), nodes[|nodes| - 1];
      if last.Var? && !last.variable.anonymous && last.variable !in before then before + [last.variable] else before
  }

  function NamedVariables(tps: seq<TriplePattern>): seq<Variable> {
    if tps == [] then [] else AddNamed(NamedVariables(tps[..|tps| - 1]), Nodes(tps[|tps| - 1]))
  }

  lemma {:induction false} AddNamedExact(vars: seq<Variable>, nodes: seq<Node>)
    requires NoDuplicates(vars)
    ensures NoDuplicates(AddNamed(vars, nodes))
    ensures forall v :: v in AddNamed(vars, nodes) <==> v in vars || (!v.anonymous && Var(v) in nodes)
  {
    if nodes != [] {
      var init, last := nodes[..|nodes| - 1], nodes[|nodes| - 1];
      assert nodes == init + [last];
      AddNamedExact(vars, init);
    }
  }

  /** The named variables of the patterns, each once. */
  lemma {:induction false} NamedVariablesExact(tps: seq<TriplePattern>)
    ensures NoDuplicates(NamedVariables(tps))
    ensures forall v :: v in NamedVariables(tps) <==> !v.anonymous && v in PatternsVars(tps)
  {
    if tps != [] {
      var init, last := tps[..|tps| - 1], tps[|tps| - 1];
      NamedVariablesExact(init);
      AddNamedExact(NamedVariables(init), Nodes(last));
      PatternsVarsConcat(init, [last]);
      assert tps == init + [last];
      assert PatternsVars([last]) == PatternVars(last) + PatternsVars([]);
    }
  }

  // All positions of the patterns, as they are written.
  function AllNodes(tps: seq<TriplePattern>): seq<Node> {
    if tps == [] then [] else AllNodes(tps[..|tps| - 1]) + Nodes(tps[|tps| - 1])
  }

  lemma {:induction false} AddNamedConcat(vars: seq<Variable>, a: seq<Node>, b: seq<Node>)
    ensures AddNamed(vars, a + b) == AddNamed(AddNamed(vars, a), b)
    ensures AddNamed(vars, a) <= AddNamed(vars, a + b)
  {
    if b == [] {
      assert a + b == a;
    } else {
      assert (a + b)[..|a + b| - 1] == a + b[..|b| - 1];
      AddNamedConcat(vars, a, b[..|b| - 1]);
    }
  }

  lemma {:induction false} NamedVariablesOfNodes(tps: seq<TriplePattern>)
    ensures NamedVariables(tps) == AddNamed([], AllNodes(tps))
  {
    if tps != [] {
      NamedVariablesOfNodes(tps[..|tps| - 1]);
      AddNamedConcat([], AllNodes(tps[..|tps| - 1]), Nodes(tps[|tps| - 1]));
    }
  }

  /**
   By first occurrence: for any number of positions, the named variables that occur in so many first
   positions are exactly those the list begins with.
   */
  lemma NamedVariablesInOrder(tps: seq<TriplePattern>, n: nat) returns (k: nat)
    requires n <= |AllNodes(tps)|
    ensures k <= |NamedVariables(tps)|
    ensures forall v :: v in NamedVariables(tps)[..k] <==> !v.anonymous && Var(v) in AllNodes(tps)[..n]
  {
    var nodes := AllNodes(tps);
    NamedVariablesOfNodes(tps);
    AddNamedConcat([], nodes[..n], nodes[n..]);
    assert nodes[..n] + nodes[n..] == nodes;
    AddNamedExact([], nodes[..n]);
    var first := AddNamed([], nodes[..n]);
    k := |first|;
    assert NamedVariables(tps)[..k] == first;
  }

  function ItemVariables(items: seq<SelectItem>): seq<Variable>
    requires forall item :: item in items ==> item.SelectVariable?
  {
    if items == [] then [] else ItemVariables(items[..|items| - 1]) + [items[|items| - 1].variable]
  }

  lemma {:induction false} ItemVariablesAt(items: seq<SelectItem>)
    requires OnlyVariables(items)
    ensures |ItemVariables(items)| == |items|
    ensures forall i :: 0 <= i < |items| ==> items[i] == SelectVariable(ItemVariables(items)[i])
  {
    if items != [] {
      ItemVariablesAt(items[..|items| - 1]);
      assert items[|items| - 1] in items;
    }
  }

  /** When which error is returned, in terms of the clauses. */
  lemma ProjectionErrorExactly(tps: seq<TriplePattern>, select: SelectClause)
    ensures ProjectionError(tps, select) == Some(ExpressionInSelect) <==> !select.asterisk && SelectExpression in select.items
    ensures ProjectionError(tps, select) == Some(NothingProjected) <==>
      if select.asterisk then forall v :: v in PatternsVars(tps) ==> v.anonymous else select.items == []
    ensures ProjectionError(tps, select) != Some(NoWhereClause)
  {
    if select.asterisk {
      NamedVariablesExact(tps);
      if forall v :: v in PatternsVars(tps) ==> v.anonymous {
        assert NamedVariables(tps) == [] by {
          if NamedVariables(tps) != [] {
            assert NamedVariables(tps)[0] in NamedVariables(tps);
          }
        }
      }
    } else if OnlyVariables(select.items) {
      ItemVariablesAt(select.items);
    } else {
      var item :| item in select.items && !item.SelectVariable?;
      assert item == SelectExpression;
    }
  }

  function RegisterItems(out: Output, items: seq<SelectItem>): Output
    requires forall item :: item in items ==> item.SelectVariable?
  {
    if items == [] then out else Register(RegisterItems(out, items[..|items| - 1]), items[|items| - 1].variable)
  }

  predicate OnlyVariables(items: seq<SelectItem>) {
    forall item :: item in items ==> item.SelectVariable?
  }

  function Projection(tps: seq<TriplePattern>, select: SelectClause): seq<Variable>
    requires select.asterisk || OnlyVariables(select.items)
  {
    if select.asterisk then NamedVariables(tps) else ItemVariables(select.items)
  }

  function ProjectionError(tps: seq<TriplePattern>, select: SelectClause): Option<QueryError> {
    if !select.asterisk && !OnlyVariables(select.items) then Some(ExpressionInSelect)
    else if Projection(tps, select) == [] then Some(NothingProjected)
    else None
  }

  lemma AppendAssoc<T>(a: seq<T>, b: seq<T>, c: seq<T>)
    ensures (a + b) + c == a + (b + c)
  {
  }

  lemma WalkAlternative(gs: seq<Group>, i: nat, gous: seq<GroupOrUnion>, tbs: seq<TriplesBlock>, opts: seq<Group>,
                        parent: Option<seq<nat>>, w: Walk)
    requires i < |gs|
    ensures WalkLeaves(ExpandAll(gs[..i + 1], gous, tbs, opts), parent, w)
         == WalkLeaves(Expand(gs[i], gous, tbs, opts), parent, WalkLeaves(ExpandAll(gs[..i], gous, tbs, opts), parent, w))
  {
    assert Init(gs[..i + 1]) == gs[..i];
    WalkLeavesConcat(ExpandAll(gs[..i], gous, tbs, opts), Expand(gs[i], gous, tbs, opts), parent, w);
  }

  lemma SecondFromTop<T>(before: seq<T>, after: seq<T>)
    requires |before| == |after| >= 2 && Init(before) == Init(after)
    ensures before[|before| - 2] == after[|after| - 2]
  {
    assert Init(before)[|before| - 2] == Init(after)[|after| - 2];
  }

  lemma TopRestored<T>(before: seq<T>, after: seq<T>)
    requires before != [] && TopReplaced(before, after, Last(before))
    ensures after == before
  {
    assert before == Init(before) + [Last(before)];
    assert after == Init(after) + [Last(after)];
  }

  lemma AppendNext<T>(a: seq<T>, b: seq<T>, i: nat)
    requires i < |b|
    ensures a + b[..i + 1] == a + b[..i] + [b[i]]
  {
  }

  lemma AppendNothing<A, B, C>(a: seq<A>, b: seq<B>, c: seq<C>)
    ensures a + [] == a && b + [] == b && c + [] == c
  {
  }

  // What the entry at `i` adds to what the entries before it were collected into.
  lemma CollectNext(first: Option<TriplesBlock>, subs: seq<Sub>, i: nat, tbs: seq<TriplesBlock>, opts: seq<Group>, gous: seq<GroupOrUnion>)
    requires i < |subs|
    ensures tbs + TriplesOf(first, subs[..i + 1]) == tbs + TriplesOf(first, subs[..i]) + BlockList(subs[i].triplesBlock)
    ensures opts + OptionalsOf(subs[..i + 1]) == opts + OptionalsOf(subs[..i]) + OptionalsIn(subs[i])
    ensures gous + UnionsOf(subs[..i + 1]) == gous + UnionsOf(subs[..i]) + UnionsIn(subs[i])
  {
    assert subs[..i + 1][..i] == subs[..i];
  }

  lemma WalkSingle(leaf: Leaf, parent: Option<seq<nat>>, w: Walk)
    ensures WalkLeaves([leaf], parent, w) == WalkLeaf(leaf, parent, w)
  {
    assert WalkLeaves([leaf], parent, w) == WalkLeaf(leaf, parent, WalkLeaves([], parent, w));
  }

  lemma WalkOptional(opts: seq<Group>, i: nat, group: seq<nat>, w: Walk)
    requires i < |opts|
    ensures WalkOptionals(NormalizeAll(opts[..i + 1]), group, w)
         == WalkLeaves(Expand(opts[i], [], [], []), Some(group), WalkOptionals(NormalizeAll(opts[..i]), group, w)).(union := [])
  {
    assert Init(opts[..i + 1]) == opts[..i];
    var nfs, nf := NormalizeAll(opts[..i]), Normalize(opts[i]);
    assert (nfs + [nf])[..|nfs|] == nfs;
  }

  lemma EmitProperty(s: Scope, subject: Node, properties: seq<Property>, i: nat)
    requires i < |properties|
    ensures EmitPatterns(s, PropertyPatterns(subject, properties[..i + 1]))
         == EmitPatterns(EmitPatterns(s, PropertyPatterns(subject, properties[..i])),
                         ObjectPatterns(subject, properties[i].verb, Objects(properties[i])))
  {
    assert properties[..i + 1][..i] == properties[..i];
    EmitPatternsConcat(s, PropertyPatterns(subject, properties[..i]), ObjectPatterns(subject, properties[i].verb, Objects(properties[i])));
  }

  lemma {:induction false} ObjectPatternsFirst(subject: Node, verb: Node, objects: seq<Node>)
    requires objects != []
    ensures ObjectPatterns(subject, verb, objects) != []
    ensures ObjectPatterns(subject, verb, objects)[0] == TriplePattern(subject, verb, objects[0])
  {
    if |objects| > 1 {
      ObjectPatternsFirst(subject, verb, objects[..|objects| - 1]);
    }
  }

  lemma {:induction false} PropertyPatternsFirst(subject: Node, properties: seq<Property>)
    requires properties != []
    ensures PropertyPatterns(subject, properties) != []
    ensures PropertyPatterns(subject, properties)[0].s == subject
  {
    var last := properties[|properties| - 1];
    ObjectPatternsFirst(subject, last.verb, Objects(last));
    if |properties| > 1 {
      PropertyPatternsFirst(subject, properties[..|properties| - 1]);
    }
  }

  // Registering some variables before the first pattern changes nothing if that pattern would
  // register them first anyway.
  lemma {:induction false} RegisterEarly(s: Scope, out: Output, tps: seq<TriplePattern>)
    requires tps != [] && RegisterPattern(out, tps[0]) == RegisterPattern(s.out, tps[0])
    ensures EmitPatterns(s.(out := out), tps) == EmitPatterns(s, tps)
  {
    if |tps| == 1 {
      assert tps[..0] == [];
    } else {
      RegisterEarly(s, out, tps[..|tps| - 1]);
    }
  }

}
