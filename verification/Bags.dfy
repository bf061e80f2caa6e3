/**
 Bags of solution mappings and the SPARQL operators on them, with their cardinalities
 (section 18.5 of SPARQL 1.1 Query Language). A bag is a sequence read up to order: `Same`.
 */
module Bags {
  import opened Rdf

  type Mapping = map<Variable, Term>

  type Bag = seq<Mapping>

  ghost predicate Same(a: Bag, b: Bag) {
    multiset(a) == multiset(b)
  }

  ghost predicate Compatible(a: Mapping, b: Mapping) {
    forall v :: v in a && v in b ==> a[v] == b[v]
  }

  // The merges of `a` with every compatible mapping of `bs`.
  ghost function Extend(a: Mapping, bs: Bag): Bag {
    if bs == [] then [] else MergeIfCompatible(a, bs[0]) + Extend(a, bs[1..])
  }

  ghost function MergeIfCompatible(a: Mapping, b: Mapping): Bag {
    if Compatible(a, b) then [a + b] else []
  }

  ghost function Join(as_: Bag, bs: Bag): Bag {
    if as_ == [] then [] else Extend(as_[0], bs) + Join(as_[1..], bs)
  }

  ghost function ExtendOrKeep(a: Mapping, bs: Bag): Bag {
    var matches := Extend(a, bs);
    if matches == [] then [a] else matches
  }

  ghost function LeftJoin(as_: Bag, bs: Bag): Bag {
    if as_ == [] then [] else ExtendOrKeep(as_[0], bs) + LeftJoin(as_[1..], bs)
  }

  // Every mapping binds at most `vars`.
  ghost predicate Within(bag: Bag, vars: set<Variable>) {
    forall m :: m in bag ==> m.Keys <= vars
  }

  // Every mapping binds at least `vars`.
  ghost predicate Binds(bag: Bag, vars: set<Variable>) {
    forall m :: m in bag ==> vars <= m.Keys
  }

  // ---- what the operators are, as section 18.5 defines them ----

  // The mappings of `a` that no mapping of `b` is compatible with.
  ghost function Diff(a: Bag, b: Bag): Bag {
    if a == [] then []
    else (if forall y :: y in b ==> !Compatible(a[0], y) then [a[0]] else []) + Diff(a[1..], b)
  }

  lemma {:induction false} ExtendsSomething(a: Mapping, b: Bag)
    ensures Extend(a, b) == [] <==> forall y :: y in b ==> !Compatible(a, y)
  {
    if b != [] {
      ExtendsSomething(a, b[1..]);
      assert b == [b[0]] + b[1..];
    }
  }

  /** A left join is the join, together with the mappings on the left that join with nothing. */
  lemma {:induction false} LeftJoinIsJoinAndDiff(a: Bag, b: Bag)
    ensures Same(LeftJoin(a, b), Join(a, b) + Diff(a, b))
  {
    if a != [] {
      LeftJoinIsJoinAndDiff(a[1..], b);
      ExtendsSomething(a[0], b);
    }
  }

  /** Two mappings join to their merge, or to nothing if a variable they share has different terms. */
  lemma JoinOfTwo(x: Mapping, y: Mapping)
    ensures Join([x], [y]) == if forall v :: v in x && v in y ==> x[v] == y[v] then [x + y] else []
  {
    Singletons(x, y, [y]);
  }

  // ---- exact laws: both sides list the same mappings in the same order ----

  lemma Singletons(a: Mapping, b: Mapping, bs: Bag)
    ensures Extend(a, [b]) == MergeIfCompatible(a, b)
    ensures Join([a], bs) == Extend(a, bs)
    ensures LeftJoin([a], bs) == ExtendOrKeep(a, bs)
  {
    assert Extend(a, [b]) == MergeIfCompatible(a, b) + Extend(a, []);
    assert Join([a], bs) == Extend(a, bs) + Join([], bs);
    assert LeftJoin([a], bs) == ExtendOrKeep(a, bs) + LeftJoin([], bs);
  }

  lemma {:induction false} ExtendConcat(a: Mapping, b: Bag, c: Bag)
    ensures Extend(a, b + c) == Extend(a, b) + Extend(a, c)
  {
    if b == [] {
      assert b + c == c;
    } else {
      assert (b + c)[1..] == b[1..] + c;
      ExtendConcat(a, b[1..], c);
    }
  }

  lemma {:induction false} JoinConcatLeft(a: Bag, b: Bag, c: Bag)
    ensures Join(a + b, c) == Join(a, c) + Join(b, c)
  {
    if a == [] {
      assert a + b == b;
    } else {
      assert (a + b)[1..] == a[1..] + b;
      JoinConcatLeft(a[1..], b, c);
    }
  }

  lemma {:induction false} LeftJoinConcatLeft(a: Bag, b: Bag, c: Bag)
    ensures LeftJoin(a + b, c) == LeftJoin(a, c) + LeftJoin(b, c)
  {
    hide ExtendOrKeep;
    if a == [] {
      assert a + b == b;
    } else {
      assert (a + b)[1..] == a[1..] + b;
      LeftJoinConcatLeft(a[1..], b, c);
    }
  }

  lemma {:induction false} ExtendEmptyMapping(bs: Bag)
    ensures Extend(map[], bs) == bs
  {
    if bs != [] {
      assert map[] + bs[0] == bs[0];
      ExtendEmptyMapping(bs[1..]);
      assert bs == [bs[0]] + bs[1..];
    }
  }

  lemma JoinUnitLeft(bs: Bag)
    ensures Join([map[]], bs) == bs
  {
    ExtendEmptyMapping(bs);
  }

  lemma {:induction false} JoinUnitRight(a: Bag)
    ensures Join(a, [map[]]) == a
  {
    if a != [] {
      assert a[0] + map[] == a[0];
      Singletons(a[0], map[], []);
      JoinUnitRight(a[1..]);
      assert a == [a[0]] + a[1..];
    }
  }

  lemma {:induction false} ExtendExtend(a: Mapping, b: Mapping, c: Bag)
    ensures Extend(a, Extend(b, c)) == if Compatible(a, b) then Extend(a + b, c) else []
  {
    if c != [] {
      var m := c[0];
      ExtendExtend(a, b, c[1..]);
      ExtendConcat(a, MergeIfCompatible(b, m), Extend(b, c[1..]));
      ExtendMerge(a, b, m);
    }
  }

  lemma ExtendMerge(a: Mapping, b: Mapping, m: Mapping)
    ensures Extend(a, MergeIfCompatible(b, m)) == if Compatible(a, b) then MergeIfCompatible(a + b, m) else []
  {
    if Compatible(b, m) {
      Singletons(a, b + m, []);
      CompatibleMerge(a, b, m);
      assert a + (b + m) == (a + b) + m;
    } else {
      CompatibleMergeFails(a, b, m);
    }
  }

  lemma CompatibleMerge(a: Mapping, b: Mapping, m: Mapping)
    requires Compatible(b, m)
    ensures Compatible(a, b + m) <==> Compatible(a, b) && Compatible(a + b, m)
  {
    if Compatible(a, b + m) {
      forall v | v in a && v in b ensures a[v] == b[v] {
        assert v in b + m;
      }
      forall v | v in a + b && v in m ensures (a + b)[v] == m[v] {
        assert v in b + m;
      }
    }
    if Compatible(a, b) && Compatible(a + b, m) {
      forall v | v in a && v in b + m ensures a[v] == (b + m)[v] {
        assert v in a + b;
      }
    }
  }

  lemma CompatibleMergeFails(a: Mapping, b: Mapping, m: Mapping)
    requires !Compatible(b, m)
    ensures Compatible(a, b) ==> !Compatible(a + b, m)
  {
    var v :| v in b && v in m && b[v] != m[v];
    assert v in a + b;
  }

  lemma {:induction false} ExtendJoin(a: Mapping, b: Bag, c: Bag)
    ensures Extend(a, Join(b, c)) == Join(Extend(a, b), c)
  {
    if b != [] {
      ExtendConcat(a, Extend(b[0], c), Join(b[1..], c));
      ExtendExtend(a, b[0], c);
      ExtendJoin(a, b[1..], c);
      JoinConcatLeft(MergeIfCompatible(a, b[0]), Extend(a, b[1..]), c);
      Singletons(a + b[0], b[0], c);
    }
  }

  lemma {:induction false} JoinAssoc(a: Bag, b: Bag, c: Bag)
    ensures Join(Join(a, b), c) == Join(a, Join(b, c))
  {
    if a != [] {
      JoinConcatLeft(Extend(a[0], b), Join(a[1..], b), c);
      ExtendJoin(a[0], b, c);
      JoinAssoc(a[1..], b, c);
    }
  }

  // ---- laws up to order ----

  lemma {:induction false} JoinConcatRight(a: Bag, b: Bag, c: Bag)
    ensures Same(Join(a, b + c), Join(a, b) + Join(a, c))
  {
    if a != [] {
      ExtendConcat(a[0], b, c);
      JoinConcatRight(a[1..], b, c);
    }
  }

  lemma MergeSymmetric(a: Mapping, b: Mapping)
    ensures MergeIfCompatible(a, b) == MergeIfCompatible(b, a)
  {
    if Compatible(a, b) {
      assert Compatible(b, a);
      assert a + b == b + a;
    }
  }

  lemma {:induction false} JoinSingleRight(b: Bag, a: Mapping)
    ensures Join(b, [a]) == Extend(a, b)
  {
    if b != [] {
      JoinSingleRight(b[1..], a);
      Singletons(b[0], a, []);
      MergeSymmetric(a, b[0]);
    }
  }

  lemma JoinEmptyRight(b: Bag)
    ensures Join(b, []) == []
  {
  }

  /** Join is commutative as a bag. */
  lemma {:induction false} JoinCommutes(a: Bag, b: Bag)
    ensures Same(Join(a, b), Join(b, a))
  {
    if a == [] {
      JoinEmptyRight(b);
    } else {
      assert a == [a[0]] + a[1..];
      JoinConcatRight(b, [a[0]], a[1..]);
      JoinSingleRight(b, a[0]);
      JoinCommutes(a[1..], b);
    }
  }

  // A permutation of [x] + rest holds x somewhere, and dropping it leaves a permutation of rest.
  lemma DropFromSame(a: Bag, b: Bag) returns (i: nat)
    requires a != [] && Same(a, b)
    ensures i < |b| && b[i] == a[0] && Same(a[1..], b[..i] + b[i + 1..])
  {
    assert a[0] in multiset(b);
    i :| 0 <= i < |b| && b[i] == a[0];
    assert a == [a[0]] + a[1..];
    assert b == b[..i] + [b[i]] + b[i + 1..];
    calc {
      multiset(a[1..]);
      multiset(a) - multiset{a[0]};
      multiset(b[..i] + [b[i]] + b[i + 1..]) - multiset{a[0]};
      multiset(b[..i]) + multiset(b[i + 1..]);
      multiset(b[..i] + b[i + 1..]);
    }
  }

  // Taking one mapping out of the middle of a bag takes its merges out of the extension.
  lemma ExtendWithout(a: Mapping, c: Bag, i: nat)
    requires i < |c|
    ensures Same(Extend(a, c), MergeIfCompatible(a, c[i]) + Extend(a, c[..i] + c[i + 1..]))
  {
    assert c == c[..i] + c[i..];
    ExtendConcat(a, c[..i], c[i..]);
    ExtendConcat(a, c[..i], c[i + 1..]);
    assert c[i..][1..] == c[i + 1..];
  }

  lemma {:induction false} SameExtend(a: Mapping, b: Bag, c: Bag)
    requires Same(b, c)
    ensures Same(Extend(a, b), Extend(a, c))
  {
    if b == [] {
      assert |multiset(c)| == 0;
      assert c == [];
    } else {
      var i := DropFromSame(b, c);
      SameExtend(a, b[1..], c[..i] + c[i + 1..]);
      ExtendWithout(a, c, i);
    }
  }

  lemma {:induction false} SameJoinRight(a: Bag, b: Bag, c: Bag)
    requires Same(b, c)
    ensures Same(Join(a, b), Join(a, c))
  {
    if a != [] {
      SameExtend(a[0], b, c);
      SameJoinRight(a[1..], b, c);
    }
  }

  lemma SameJoinLeft(a: Bag, b: Bag, c: Bag)
    requires Same(a, b)
    ensures Same(Join(a, c), Join(b, c))
  {
    JoinCommutes(a, c);
    JoinCommutes(b, c);
    SameJoinRight(c, a, b);
  }

  lemma {:induction false} SameLeftJoinRight(a: Bag, b: Bag, c: Bag)
    requires Same(b, c)
    ensures Same(LeftJoin(a, b), LeftJoin(a, c))
  {
    if a != [] {
      SameExtend(a[0], b, c);
      assert Extend(a[0], b) == [] <==> Extend(a[0], c) == [] by {
        assert |multiset(Extend(a[0], b))| == |Extend(a[0], b)|;
        assert |multiset(Extend(a[0], c))| == |Extend(a[0], c)|;
      }
      SameLeftJoinRight(a[1..], b, c);
    }
  }

  lemma {:induction false} LeftJoinWithout(a: Bag, i: nat, c: Bag)
    requires i < |a|
    ensures Same(LeftJoin(a, c), ExtendOrKeep(a[i], c) + LeftJoin(a[..i] + a[i + 1..], c))
  {
    assert a == a[..i] + a[i..];
    LeftJoinConcatLeft(a[..i], a[i..], c);
    LeftJoinConcatLeft(a[..i], a[i + 1..], c);
    assert a[i..][1..] == a[i + 1..];
  }

  lemma {:induction false} SameLeftJoinLeft(a: Bag, b: Bag, c: Bag)
    requires Same(a, b)
    ensures Same(LeftJoin(a, c), LeftJoin(b, c))
  {
    if a == [] {
      assert |multiset(b)| == 0;
      assert b == [];
    } else {
      var i := DropFromSame(a, b);
      SameLeftJoinLeft(a[1..], b[..i] + b[i + 1..], c);
      LeftJoinWithout(b, i, c);
    }
  }

  // ---- laws that need shared variables to be bound on the left ----

  lemma {:induction false} ExtendBound(x: Mapping, y: Mapping, c: Bag, vc: set<Variable>)
    requires Compatible(x, y) && Within(c, vc) && x.Keys * vc <= y.Keys
    ensures Extend(x, Extend(y, c)) == Extend(x + y, c)
    ensures |Extend(x + y, c)| == |Extend(y, c)|
  {
    ExtendExtend(x, y, c);
    if c != [] {
      var m := c[0];
      assert m in c;
      ExtendBound(x, y, c[1..], vc);
      assert Compatible(y, m) <==> Compatible(x + y, m) by {
        if Compatible(y, m) {
          forall v | v in x + y && v in m ensures (x + y)[v] == m[v] {
            assert v in y;
          }
        }
        if Compatible(x + y, m) {
          forall v | v in y && v in m ensures y[v] == m[v] {
            assert v in x + y;
          }
        }
      }
    }
  }

  lemma ExtendOrKeepBound(x: Mapping, y: Mapping, c: Bag, vc: set<Variable>)
    requires Within(c, vc) && x.Keys * vc <= y.Keys
    ensures Extend(x, ExtendOrKeep(y, c)) == if Compatible(x, y) then ExtendOrKeep(x + y, c) else []
  {
    ExtendExtend(x, y, c);
    Singletons(x, y, []);
    if Compatible(x, y) {
      ExtendBound(x, y, c, vc);
    }
  }

  lemma {:induction false} ExtendLeftJoin(x: Mapping, b: Bag, c: Bag, vc: set<Variable>, bound: set<Variable>)
    requires Within(c, vc) && Binds(b, bound) && x.Keys * vc <= bound
    ensures Extend(x, LeftJoin(b, c)) == LeftJoin(Extend(x, b), c)
  {
    if b != [] {
      var y := b[0];
      assert y in b;
      ExtendConcat(x, ExtendOrKeep(y, c), LeftJoin(b[1..], c));
      ExtendLeftJoin(x, b[1..], c, vc, bound);
      ExtendOrKeepBound(x, y, c, vc);
      LeftJoinConcatLeft(MergeIfCompatible(x, y), Extend(x, b[1..]), c);
      Singletons(x + y, y, c);
    }
  }

  /** Joining on the left of an OPTIONAL, exactly: a JOIN (b OPT c) = (a JOIN b) OPT c. */
  lemma {:induction false} JoinLeftJoin(a: Bag, b: Bag, c: Bag, va: set<Variable>, vc: set<Variable>, bound: set<Variable>)
    requires Within(a, va) && Within(c, vc) && Binds(b, bound) && va * vc <= bound
    ensures Join(a, LeftJoin(b, c)) == LeftJoin(Join(a, b), c)
  {
    if a != [] {
      assert a[0] in a;
      ExtendLeftJoin(a[0], b, c, vc, bound);
      LeftJoinConcatLeft(Extend(a[0], b), Join(a[1..], b), c);
      JoinLeftJoin(a[1..], b, c, va, vc, bound);
    }
  }

  /** A later join moves in front of an OPTIONAL: (a OPT c) JOIN b = (a JOIN b) OPT c. */
  lemma LeftJoinJoin(a: Bag, b: Bag, c: Bag, vb: set<Variable>, vc: set<Variable>, bound: set<Variable>)
    requires Within(b, vb) && Within(c, vc) && Binds(a, bound) && vb * vc <= bound
    ensures Same(Join(LeftJoin(a, c), b), LeftJoin(Join(a, b), c))
  {
    JoinCommutes(LeftJoin(a, c), b);
    JoinLeftJoin(b, a, c, vb, vc, bound);
    JoinCommutes(a, b);
    SameLeftJoinLeft(Join(b, a), Join(a, b), c);
  }

  lemma {:induction false} LeftJoinOfMerge(x: Mapping, y: Mapping, b: Bag, vb: set<Variable>)
    requires Within(b, vb) && y.Keys * vb <= x.Keys
    ensures Extend(x, b) == [] ==> LeftJoin(MergeIfCompatible(x, y), b) == MergeIfCompatible(x, y)
    ensures Extend(x, b) != [] ==> LeftJoin(MergeIfCompatible(x, y), b) == Join(MergeIfCompatible(x, y), b)
  {
    if Compatible(x, y) {
      MergeSymmetric(x, y);
      assert x + y == y + x;
      ExtendBound(y, x, b, vb);
      Singletons(x + y, y, b);
    }
  }

  lemma {:induction false} LeftJoinOfExtend(x: Mapping, a: Bag, b: Bag, va: set<Variable>, vb: set<Variable>)
    requires Within(a, va) && Within(b, vb) && va * vb <= x.Keys
    ensures Extend(x, b) == [] ==> LeftJoin(Extend(x, a), b) == Extend(x, a)
    ensures Extend(x, b) != [] ==> LeftJoin(Extend(x, a), b) == Join(Extend(x, a), b)
  {
    if a != [] {
      assert a[0] in a;
      LeftJoinOfExtend(x, a[1..], b, va, vb);
      LeftJoinOfMerge(x, a[0], b, vb);
      LeftJoinConcatLeft(MergeIfCompatible(x, a[0]), Extend(x, a[1..]), b);
      JoinConcatLeft(MergeIfCompatible(x, a[0]), Extend(x, a[1..]), b);
    }
  }

  lemma OptionalsCommuteAt(x: Mapping, a: Bag, b: Bag, va: set<Variable>, vb: set<Variable>)
    requires Within(a, va) && Within(b, vb) && va * vb <= x.Keys
    ensures Same(LeftJoin(ExtendOrKeep(x, a), b), LeftJoin(ExtendOrKeep(x, b), a))
  {
    LeftJoinOfExtend(x, a, b, va, vb);
    LeftJoinOfExtend(x, b, a, vb, va);
    Singletons(x, x, a);
    Singletons(x, x, b);
    if Extend(x, a) != [] && Extend(x, b) != [] {
      ExtendJoin(x, a, b);
      ExtendJoin(x, b, a);
      JoinCommutes(a, b);
      SameExtend(x, Join(a, b), Join(b, a));
    }
  }

  /** Two OPTIONALs on one left side commute when the left binds what they share. */
  lemma {:induction false} OptionalsCommute(x: Bag, a: Bag, b: Bag, va: set<Variable>, vb: set<Variable>, bound: set<Variable>)
    requires Within(a, va) && Within(b, vb) && Binds(x, bound) && va * vb <= bound
    ensures Same(LeftJoin(LeftJoin(x, a), b), LeftJoin(LeftJoin(x, b), a))
  {
    if x != [] {
      assert x[0] in x;
      OptionalsCommuteAt(x[0], a, b, va, vb);
      LeftJoinConcatLeft(ExtendOrKeep(x[0], a), LeftJoin(x[1..], a), b);
      LeftJoinConcatLeft(ExtendOrKeep(x[0], b), LeftJoin(x[1..], b), a);
      OptionalsCommute(x[1..], a, b, va, vb, bound);
    }
  }

  // ---- which variables a result can and must bind ----

  lemma {:induction false} ExtendDomain(x: Mapping, b: Bag, vb: set<Variable>, bound: set<Variable>)
    requires Within(b, vb) && Binds(b, bound)
    ensures Within(Extend(x, b), x.Keys + vb) && Binds(Extend(x, b), x.Keys + bound)
  {
    if b != [] {
      assert b[0] in b;
      ExtendDomain(x, b[1..], vb, bound);
    }
  }

  lemma {:induction false} JoinDomain(a: Bag, b: Bag, va: set<Variable>, vb: set<Variable>, ca: set<Variable>, cb: set<Variable>)
    requires Within(a, va) && Within(b, vb) && Binds(a, ca) && Binds(b, cb)
    ensures Within(Join(a, b), va + vb) && Binds(Join(a, b), ca + cb)
  {
    if a != [] {
      assert a[0] in a;
      ExtendDomain(a[0], b, vb, cb);
      JoinDomain(a[1..], b, va, vb, ca, cb);
    }
  }

  lemma {:induction false} LeftJoinDomain(a: Bag, b: Bag, va: set<Variable>, vb: set<Variable>, ca: set<Variable>)
    requires Within(a, va) && Within(b, vb) && Binds(a, ca)
    ensures Within(LeftJoin(a, b), va + vb) && Binds(LeftJoin(a, b), ca)
  {
    if a != [] {
      assert a[0] in a;
      ExtendDomain(a[0], b, vb, {});
      LeftJoinDomain(a[1..], b, va, vb, ca);
    }
  }

}
