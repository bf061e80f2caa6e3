/**
 Counting the solutions of a whole query. The shortcut by slice size is taken whenever the query has
 one triple pattern; whether it is right also depends on where that pattern sits, since UNION and
 OPTIONAL may have branches without any pattern.
 */
module QueryCount {
  import opened Wrappers
  import opened Sequences
  import opened Rdf
  import opened Bags
  import opened Entries
  import opened Patterns
  import opened Semantics
  import opened WellDesignedness
  import opened Preservation
  import opened Emission
  import opened Visitor
  import opened Alignment
  import opened Counting

  // ---- leaves without triple patterns ----

  // How many solutions there are without any pattern; each is the empty mapping.
  function Copies(leaves: seq<Leaf>): nat
    decreases leaves, 0
  {
    if leaves == [] then 0 else Copies(leaves[..|leaves| - 1]) + OptionalsCopies(leaves[|leaves| - 1].optionals)
  }

  // How often pattern-free OPTIONALs repeat each solution on their left.
  function OptionalsCopies(nfs: seq<NormalForm>): nat
    decreases nfs, 0
  {
    if nfs == [] then 1
    else OptionalsCopies(nfs[..|nfs| - 1]) * AtLeastOne(Copies(nfs[|nfs| - 1].leaves))
  }

  function AtLeastOne(n: nat): nat {
    if n == 0 then 1 else n
  }

  ghost predicate AllEmpty(bag: Bag) {
    forall i :: 0 <= i < |bag| ==> bag[i] == map[]
  }

  // `b` lists the mappings of `a`, each `n` times.
  ghost predicate Multiplies(a: Bag, b: Bag, n: nat) {
    && |b| == |a| * n
    && (forall m :: m in b <==> m in a)
    && (n == 1 ==> b == a)
  }

  lemma {:induction false} ExtendByEmpty(a: Mapping, units: Bag)
    requires AllEmpty(units)
    ensures |Extend(a, units)| == |units| && forall i :: 0 <= i < |units| ==> Extend(a, units)[i] == a
  {
    if units != [] {
      assert AllEmpty(units[1..]);
      ExtendByEmpty(a, units[1..]);
      assert a + units[0] == a;
    }
  }

  lemma KeepByEmpty(a: Mapping, units: Bag)
    requires AllEmpty(units)
    ensures Multiplies([a], ExtendOrKeep(a, units), AtLeastOne(|units|))
  {
    ExtendByEmpty(a, units);
    var kept := ExtendOrKeep(a, units);
    assert kept[0] == a;
  }

  lemma MultipliesConcat(a: Bag, b: Bag, a': Bag, b': Bag, n: nat)
    requires Multiplies(a, b, n) && Multiplies(a', b', n)
    ensures Multiplies(a + a', b + b', n)
  {
    assert |a + a'| * n == |a| * n + |a'| * n;
  }

  lemma MultipliesTwice(a: Bag, b: Bag, c: Bag, n: nat, k: nat)
    requires Multiplies(a, b, n) && Multiplies(b, c, k)
    ensures Multiplies(a, c, n * k)
  {
    assert |a| * (n * k) == (|a| * n) * k;
    FactorsOfOne(n, k);
  }

  lemma FactorsOfOne(n: nat, k: nat)
    ensures n * k == 1 ==> n == 1 && k == 1
  {
    if n > 0 && k > 0 {
      assert n * (k - 1) >= 0 && (n - 1) * k >= 0;
    }
  }

  lemma {:induction false} LeftJoinByEmpty(left: Bag, units: Bag)
    requires AllEmpty(units)
    ensures Multiplies(left, LeftJoin(left, units), AtLeastOne(|units|))
  {
    if left != [] {
      LeftJoinByEmpty(left[1..], units);
      KeepByEmpty(left[0], units);
      MultipliesConcat([left[0]], ExtendOrKeep(left[0], units), left[1..], LeftJoin(left[1..], units), AtLeastOne(|units|));
      assert left == [left[0]] + left[1..];
    }
  }

  /** Pattern-free OPTIONALs only repeat what is on their left, on every graph alike. */
  lemma {:induction false} PatternFreeOptionals(graph: Graph, left: Bag, nfs: seq<NormalForm>)
    requires OptionalsPatterns(nfs) == []
    ensures Multiplies(left, EvalOptionals(graph, left, nfs), OptionalsCopies(nfs))
    decreases nfs, 0
  {
    if nfs != [] {
      var init, leaves := nfs[..|nfs| - 1], nfs[|nfs| - 1].leaves;
      var before := EvalOptionals(graph, left, init);
      PatternFreeOptionals(graph, left, init);
      PatternFreeLeaves(graph, leaves);
      LeftJoinByEmpty(before, EvalLeaves(graph, leaves));
      MultipliesTwice(left, before, EvalOptionals(graph, left, nfs), OptionalsCopies(init), AtLeastOne(Copies(leaves)));
    }
  }

  lemma {:induction false} PatternFreeLeaves(graph: Graph, leaves: seq<Leaf>)
    requires LeavesPatterns(leaves) == []
    ensures |EvalLeaves(graph, leaves)| == Copies(leaves) && AllEmpty(EvalLeaves(graph, leaves))
    decreases leaves, 0
  {
    if leaves != [] {
      var init, last := leaves[..|leaves| - 1], leaves[|leaves| - 1];
      PatternFreeLeaves(graph, init);
      assert LeafPatterns(last) == [] && last.bgp == [];
      PatternFreeOptionals(graph, [map[]], last.optionals);
      AllOfEmpty(EvalLeaf(graph, last), OptionalsCopies(last.optionals));
    }
  }

  lemma AllOfEmpty(bag: Bag, n: nat)
    requires Multiplies([map[]], bag, n)
    ensures AllEmpty(bag) && |bag| == n
  {
    forall i | 0 <= i < |bag| ensures bag[i] == map[] {
      assert bag[i] in bag;
    }
  }

  // ---- entries for any solutions ----

  function UnitEntries(keys: seq<seq<Option<Term>>>): (entries: seq<Entry>)
    ensures |entries| == |keys| && forall i :: 0 <= i < |keys| ==> entries[i] == Entry(keys[i], 1)
  {
    if keys == [] then [] else UnitEntries(keys[..|keys| - 1]) + [Entry(keys[|keys| - 1], 1)]
  }

  lemma UnitEntriesOneMore(keys: seq<seq<Option<Term>>>)
    requires keys != []
    ensures UnitEntries(keys)[..|keys| - 1] == UnitEntries(keys[..|keys| - 1])
  {
    var init, last := keys[..|keys| - 1], keys[|keys| - 1];
    assert UnitEntries(keys) == UnitEntries(init) + [Entry(last, 1)];
    hide UnitEntries;
  }

  lemma RepeatedOnce<T>(x: T)
    ensures Repeated(x, 1) == [x]
  {
    assert Repeated(x, 1) == [x] + Repeated(x, 0);
  }

  lemma {:induction false} UnitEntriesExpand(keys: seq<seq<Option<Term>>>)
    ensures Expanded(UnitEntries(keys)) == keys && EntryKeys(UnitEntries(keys)) == keys
  {
    if keys != [] {
      hide UnitEntries, Repeated;
      UnitEntriesExpand(keys[..|keys| - 1]);
      UnitEntriesOneMore(keys);
      RepeatedOnce(keys[|keys| - 1]);
      assert keys == keys[..|keys| - 1] + [keys[|keys| - 1]];
    }
  }

  function WithoutRepeats<T(==,!new)>(s: seq<T>): (r: seq<T>)
    ensures NoDuplicates(r) && forall x :: x in r <==> x in s
  {
    if s == [] then []
    else
      var init := WithoutRepeats(s[..|s| - 1]);
      if s[|s| - 1] in init then init else init + [s[|s| - 1]]
  }

  // Whatever the solutions, evaluation has something to yield.
  lemma SomeEntries(solutions: Bag, projection: seq<Variable>, distinct: bool) returns (entries: seq<Entry>)
    ensures Evaluates(solutions, projection, distinct, entries)
  {
    hide UnitEntries, WithoutRepeats, ProjectedAll, Expanded, EntryKeys, NoDuplicates;
    var keys := ProjectedAll(solutions, projection);
    if distinct {
      entries := UnitEntries(WithoutRepeats(keys));
      UnitEntriesExpand(WithoutRepeats(keys));
    } else {
      entries := UnitEntries(keys);
      UnitEntriesExpand(keys);
    }
  }

  lemma TotalWithoutDistinct(solutions: Bag, projection: seq<Variable>, entries: seq<Entry>)
    requires Evaluates(solutions, projection, false, entries)
    ensures Total(entries) == |solutions|
  {
    ExpandedSize(entries);
    ProjectedAllSize(solutions, projection);
    assert |multiset(Expanded(entries))| == |multiset(ProjectedAll(solutions, projection))|;
  }

  lemma SomethingIsCounted(solutions: Bag, projection: seq<Variable>, distinct: bool, entries: seq<Entry>)
    requires solutions != [] && Evaluates(solutions, projection, distinct, entries)
    ensures Total(entries) > 0
  {
    if distinct {
      UnitTotal(entries);
      assert ProjectedAll(solutions, projection)[0] in EntryKeys(entries);
    } else {
      TotalWithoutDistinct(solutions, projection, entries);
    }
  }

  lemma {:induction false} ProjectedMembers(a: Bag, b: Bag, projection: seq<Variable>, key: seq<Option<Term>>)
    requires forall m :: m in a ==> m in b
    ensures key in ProjectedAll(a, projection) ==> key in ProjectedAll(b, projection)
  {
    ProjectedAllSize(a, projection);
    ProjectedAllSize(b, projection);
    if key in ProjectedAll(a, projection) {
      var i :| 0 <= i < |a| && ProjectedAll(a, projection)[i] == key;
      assert a[i] in b;
      var j :| 0 <= j < |b| && b[j] == a[i];
      assert ProjectedAll(b, projection)[j] == key;
    }
  }

  // With DISTINCT only the set of solutions matters.
  lemma DistinctSeesMembers(a: Bag, b: Bag, projection: seq<Variable>, entries: seq<Entry>)
    requires forall m :: m in a <==> m in b
    ensures Evaluates(a, projection, true, entries) <==> Evaluates(b, projection, true, entries)
  {
    forall key ensures key in ProjectedAll(a, projection) <==> key in ProjectedAll(b, projection) {
      ProjectedMembers(a, b, projection, key);
      ProjectedMembers(b, a, projection, key);
    }
  }

  // ---- when the slice size is the number of solutions of the query ----

  /**
   A caller can read this off the query: it is one leaf of one pattern, whose OPTIONALs (which have
   none) repeat nothing unless DISTINCT hides it, and the pattern itself may be counted by size.
   */
  predicate IsQueryCountable(nf: NormalForm, tp: TriplePattern, projection: seq<Variable>, distinct: bool) {
    && |nf.leaves| == 1 && nf.leaves[0].bgp == [tp]
    && (distinct || OptionalsCopies(nf.leaves[0].optionals) == 1)
    && IsCountableBySize(tp, projection, distinct)
  }

  ghost predicate SliceCountsSolutions(nf: NormalForm, tp: TriplePattern, projection: seq<Variable>, distinct: bool) {
    forall graph, entries ::
      NoDuplicates(graph) && Evaluates(EvalLeaves(graph, nf.leaves), projection, distinct, entries) ==>
      |Rows(graph, SliceKeyOf(tp))| == Total(entries)
  }

  lemma SingleLeafSolutions(graph: Graph, nf: NormalForm, tp: TriplePattern)
    requires |nf.leaves| == 1 && nf.leaves[0].bgp == [tp] && LeavesPatterns(nf.leaves) == [tp]
    ensures Multiplies(Solutions(graph, tp), EvalLeaves(graph, nf.leaves), OptionalsCopies(nf.leaves[0].optionals))
  {
    hide Multiplies, EvalLeaves, EvalBgp, OptionalsCopies, OptionalsPatterns, LeavesPatterns, EvalOptionals;
    var leaf := nf.leaves[0];
    SingleLeaf(graph, leaf);
    assert nf.leaves == [leaf];
    SingleLeafPatterns(leaf);
    assert OptionalsPatterns(leaf.optionals) == [];
    LonePattern(graph, tp);
    PatternFreeOptionals(graph, Solutions(graph, tp), leaf.optionals);
  }

  lemma LonePattern(graph: Graph, tp: TriplePattern)
    ensures EvalBgp(graph, [tp]) == Solutions(graph, tp)
  {
    JoinUnitRight(Solutions(graph, tp));
  }

  lemma SingleLeafPatterns(leaf: Leaf)
    ensures LeavesPatterns([leaf]) == leaf.bgp + OptionalsPatterns(leaf.optionals)
  {
    assert LeavesPatterns([leaf]) == LeavesPatterns([]) + LeafPatterns(leaf);
  }

  lemma QueryCountAgrees(graph: Graph, nf: NormalForm, tp: TriplePattern, projection: seq<Variable>, distinct: bool, entries: seq<Entry>)
    requires NoDuplicates(graph) && LeavesPatterns(nf.leaves) == [tp]
    requires IsQueryCountable(nf, tp, projection, distinct)
    requires Evaluates(EvalLeaves(graph, nf.leaves), projection, distinct, entries)
    ensures |Rows(graph, SliceKeyOf(tp))| == Total(entries)
  {
    SingleLeafSolutions(graph, nf, tp);
    if distinct {
      DistinctSeesMembers(Solutions(graph, tp), EvalLeaves(graph, nf.leaves), projection, entries);
    }
    FastCountAgrees(graph, tp, projection, distinct, entries);
  }

  // ---- when it is not ----

  lemma {:induction false} OptionalsKeepSolutions(graph: Graph, left: Bag, nfs: seq<NormalForm>)
    requires left != []
    ensures EvalOptionals(graph, left, nfs) != []
    decreases nfs, 0
  {
    if nfs != [] {
      OptionalsKeepSolutions(graph, left, nfs[..|nfs| - 1]);
    }
  }

  lemma {:induction false} BareLeafHasSolutions(graph: Graph, leaves: seq<Leaf>, i: nat)
    requires i < |leaves| && leaves[i].bgp == []
    ensures EvalLeaves(graph, leaves) != []
  {
    if i < |leaves| - 1 {
      BareLeafHasSolutions(graph, leaves[..|leaves| - 1], i);
    } else {
      OptionalsKeepSolutions(graph, [map[]], leaves[i].optionals);
    }
  }

  // The one pattern cannot be in two places.
  lemma BareLeaf(leaves: seq<Leaf>, tp: TriplePattern) returns (i: nat)
    requires LeavesPatterns(leaves) == [tp] && !(|leaves| == 1 && leaves[0].bgp == [tp])
    ensures i < |leaves| && leaves[i].bgp == []
  {
    var init, last := leaves[..|leaves| - 1], leaves[|leaves| - 1];
    assert [tp] == LeavesPatterns(init) + (last.bgp + OptionalsPatterns(last.optionals));
    if last.bgp == [] {
      i := |leaves| - 1;
    } else {
      assert |last.bgp| == 1 && last.bgp == [tp][|LeavesPatterns(init)|..][..1];
      assert LeavesPatterns(init) == [] && last.bgp == [tp];
      i := |init| - 1;
      assert LeavesPatterns(init) == LeavesPatterns(init[..i]) + LeafPatterns(init[i]);
    }
  }

  /**
   A leaf or an alternative without patterns has a solution even on the empty graph, as in
   `{ {} UNION { ?x p ?y } }` and `{ OPTIONAL { ?x p ?y } }`; the slice is empty there.
   */
  lemma BareLeafMiscounts(nf: NormalForm, tp: TriplePattern, projection: seq<Variable>, distinct: bool) returns (entries: seq<Entry>)
    requires LeavesPatterns(nf.leaves) == [tp] && !(|nf.leaves| == 1 && nf.leaves[0].bgp == [tp])
    ensures Evaluates(EvalLeaves([], nf.leaves), projection, distinct, entries)
    ensures |Rows([], SliceKeyOf(tp))| == 0 < Total(entries)
  {
    var i := BareLeaf(nf.leaves, tp);
    BareLeafHasSolutions([], nf.leaves, i);
    entries := SomeEntries(EvalLeaves([], nf.leaves), projection, distinct);
    SomethingIsCounted(EvalLeaves([], nf.leaves), projection, distinct, entries);
  }

  /**
   An OPTIONAL without patterns may repeat each solution, as in `{ ?x p ?y OPTIONAL { {} UNION {} } }`:
   a triple that is in the slice then counts more than once, or not at all if a variable repeats.
   */
  lemma RepetitionMiscounts(nf: NormalForm, tp: TriplePattern, projection: seq<Variable>) returns (entries: seq<Entry>)
    requires LeavesPatterns(nf.leaves) == [tp] && |nf.leaves| == 1 && nf.leaves[0].bgp == [tp]
    requires OptionalsCopies(nf.leaves[0].optionals) != 1
    ensures Evaluates(EvalLeaves([AllDifferent(tp)], nf.leaves), projection, false, entries)
    ensures |Rows([AllDifferent(tp)], SliceKeyOf(tp))| == 1 != Total(entries)
  {
    var graph, n := [AllDifferent(tp)], OptionalsCopies(nf.leaves[0].optionals);
    OneRow(tp);
    SolutionsInSlice(tp, graph[0]);
    OneTriple(tp, graph[0]);
    SingleLeafSolutions(graph, nf, tp);
    entries := SomeEntries(EvalLeaves(graph, nf.leaves), projection, false);
    TotalWithoutDistinct(EvalLeaves(graph, nf.leaves), projection, entries);
    assert |Solutions(graph, tp)| * n != 1 by {
      FactorsOfOne(|Solutions(graph, tp)|, n);
    }
  }

  lemma OneRow(tp: TriplePattern)
    ensures |Rows([AllDifferent(tp)], SliceKeyOf(tp))| == 1
  {
    assert [AllDifferent(tp)][1..] == [];
  }

  lemma OneTriple(tp: TriplePattern, t: Triple)
    ensures Solutions([t], tp) == MatchTriple(tp, t)
  {
    assert [t][1..] == [];
  }

  // The miscounts of the pattern itself carry over to the query.
  lemma PatternMiscounts(nf: NormalForm, tp: TriplePattern, projection: seq<Variable>, distinct: bool)
    returns (graph: Graph, entries: seq<Entry>)
    requires LeavesPatterns(nf.leaves) == [tp] && |nf.leaves| == 1 && nf.leaves[0].bgp == [tp]
    requires distinct || OptionalsCopies(nf.leaves[0].optionals) == 1
    requires !IsCountableBySize(tp, projection, distinct)
    ensures NoDuplicates(graph) && Evaluates(EvalLeaves(graph, nf.leaves), projection, distinct, entries)
    ensures |Rows(graph, SliceKeyOf(tp))| != Total(entries)
  {
    graph, entries := Miscount(tp, projection, distinct);
    SingleLeafSolutions(graph, nf, tp);
    if distinct {
      DistinctSeesMembers(Solutions(graph, tp), EvalLeaves(graph, nf.leaves), projection, entries);
    }
  }

  /** For every query outside the condition, a graph on which the shortcut returns a wrong count. */
  lemma QueryMiscount(nf: NormalForm, tp: TriplePattern, projection: seq<Variable>, distinct: bool)
    returns (graph: Graph, entries: seq<Entry>)
    requires LeavesPatterns(nf.leaves) == [tp] && !IsQueryCountable(nf, tp, projection, distinct)
    ensures NoDuplicates(graph) && Evaluates(EvalLeaves(graph, nf.leaves), projection, distinct, entries)
    ensures |Rows(graph, SliceKeyOf(tp))| != Total(entries)
  {
    if !(|nf.leaves| == 1 && nf.leaves[0].bgp == [tp]) {
      graph := [];
      entries := BareLeafMiscounts(nf, tp, projection, distinct);
    } else if !distinct && OptionalsCopies(nf.leaves[0].optionals) != 1 {
      graph := [AllDifferent(tp)];
      entries := RepetitionMiscounts(nf, tp, projection);
    } else {
      graph, entries := PatternMiscounts(nf, tp, projection, distinct);
    }
  }

  // ---- the theorem ----

  /**
   For a query that emits one triple pattern, the slice size is the number of its solutions on every
   graph if and only if the query is countable.
   */
  lemma FastCountIsRightExactly(nf: NormalForm, tp: TriplePattern, projection: seq<Variable>, distinct: bool)
    requires Emit(nf).patterns == [tp]
    ensures SliceCountsSolutions(nf, tp, projection, distinct) <==> IsQueryCountable(nf, tp, projection, distinct)
  {
    var order := EmitAligned(nf);
    if IsQueryCountable(nf, tp, projection, distinct) {
      forall graph, entries | NoDuplicates(graph) && Evaluates(EvalLeaves(graph, nf.leaves), projection, distinct, entries)
        ensures |Rows(graph, SliceKeyOf(tp))| == Total(entries)
      {
        QueryCountAgrees(graph, nf, tp, projection, distinct, entries);
      }
    } else {
      var graph, entries := QueryMiscount(nf, tp, projection, distinct);
    }
  }

  // ---- in terms of the group in the WHERE clause ----

  ghost predicate SliceCountsGroup(g: Group, tp: TriplePattern, projection: seq<Variable>, distinct: bool) {
    forall graph, entries ::
      NoDuplicates(graph) && Evaluates(Eval(graph, g), projection, distinct, entries) ==>
      |Rows(graph, SliceKeyOf(tp))| == Total(entries)
  }

  lemma {:induction false} ProjectedSame(a: Bag, b: Bag, projection: seq<Variable>)
    requires Same(a, b)
    ensures multiset(ProjectedAll(a, projection)) == multiset(ProjectedAll(b, projection))
  {
    if a == [] {
      assert |multiset(b)| == 0;
    } else {
      var i := DropFromSame(a, b);
      ProjectedSame(a[1..], b[..i] + b[i + 1..], projection);
      ProjectedWithout(b, i, projection);
    }
  }

  lemma ProjectedWithout(b: Bag, i: nat, projection: seq<Variable>)
    requires i < |b|
    ensures multiset(ProjectedAll(b, projection))
      == multiset([Projected(b[i], projection)]) + multiset(ProjectedAll(b[..i] + b[i + 1..], projection))
  {
    var keys, rest := ProjectedAll(b, projection), b[..i] + b[i + 1..];
    ProjectedAllSize(b, projection);
    ProjectedAllSize(rest, projection);
    assert ProjectedAll(rest, projection) == keys[..i] + keys[i + 1..];
    assert keys == keys[..i] + [keys[i]] + keys[i + 1..];
  }

  lemma EvaluatesSame(a: Bag, b: Bag, projection: seq<Variable>, distinct: bool, entries: seq<Entry>)
    requires Same(a, b)
    ensures Evaluates(a, projection, distinct, entries) <==> Evaluates(b, projection, distinct, entries)
  {
    if distinct {
      assert forall m :: m in a <==> m in multiset(a);
      assert forall m :: m in b <==> m in multiset(b);
      DistinctSeesMembers(a, b, projection, entries);
    } else {
      ProjectedSame(a, b, projection);
    }
  }

  /** The same for the solutions of a well-designed WHERE clause as it is written. */
  lemma GroupCountIsRightExactly(g: Group, tp: TriplePattern, projection: seq<Variable>, distinct: bool)
    requires WellDesigned(g, {}) && Emit(Normalize(g)).patterns == [tp]
    ensures SliceCountsGroup(g, tp, projection, distinct) <==> IsQueryCountable(Normalize(g), tp, projection, distinct)
  {
    forall graph, entries
      ensures Evaluates(Eval(graph, g), projection, distinct, entries)
         <==> Evaluates(EvalLeaves(graph, Normalize(g).leaves), projection, distinct, entries)
    {
      NormalizePreservesMeaning(graph, g);
      EvaluatesSame(Eval(graph, g), EvalLeaves(graph, Normalize(g).leaves), projection, distinct, entries);
    }
    hide Evaluates, Eval, EvalLeaves, Rows, IsQueryCountable, NoDuplicates;
    FastCountIsRightExactly(Normalize(g), tp, projection, distinct);
  }

  // ---- the operation ----

  /**
   `pattern` is the WHERE clause the query was parsed from, `entries` what evaluating it would yield;
   a query with one triple pattern never looks at them.
   */
  method Count(query: SparqlQuery, graph: Graph, entries: seq<Entry>, ghost pattern: Group) returns (count: nat)
    requires NoDuplicates(graph) && query.triplePatterns == Emit(Normalize(pattern)).patterns
    ensures count ==
      if |query.triplePatterns| == 1 then |Rows(graph, SliceKeyOf(query.triplePatterns[0]))| else Total(entries)
    ensures
      && Evaluates(EvalLeaves(graph, Normalize(pattern).leaves), query.projectedVariables, query.distinct, entries)
      && (|query.triplePatterns| == 1 ==>
            IsQueryCountable(Normalize(pattern), query.triplePatterns[0], query.projectedVariables, query.distinct))
      ==> count == Total(entries)
  {
    hide IsQueryCountable, Evaluates, NoDuplicates, Rows, EvalLeaves, Emit;
    if |query.triplePatterns| == 1 {
      var keys := GetSliceKeys(query);
      var key := keys[0];
      if FixedDepth(key) == 3 {
        GroundRows(graph, key);
        count := if SliceOf(graph, key).found then 1 else 0;
      } else {
        count := |SliceOf(graph, key).rows|;
      }
      if
        && Evaluates(EvalLeaves(graph, Normalize(pattern).leaves), query.projectedVariables, query.distinct, entries)
        && IsQueryCountable(Normalize(pattern), query.triplePatterns[0], query.projectedVariables, query.distinct)
      {
        ghost var order := EmitAligned(Normalize(pattern));
        assert LeavesPatterns(Normalize(pattern).leaves) == [query.triplePatterns[0]];
        QueryCountAgrees(graph, Normalize(pattern), query.triplePatterns[0], query.projectedVariables, query.distinct, entries);
      }
    } else {
      count := 0;
      for i := 0 to |entries|
        invariant count == Total(entries[..i])
      {
        assert entries[..i + 1][..i] == entries[..i];
        count := count + entries[i].value;
      }
      assert entries[..|entries|] == entries;
    }
  }

}
