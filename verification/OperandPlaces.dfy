/**
 Where the operands of a query sit: the place of an operand leads to the leaf whose basic graph
 pattern its triple pattern belongs to, and every pattern of every leaf has its operand.
 */
module OperandPlaces {
  import opened Wrappers
  import opened Rdf
  import opened Patterns
  import opened Emission
  import opened Alignment
  import opened OdgShape

  /**
   The leaf a place leads to: at each level a union branch, and from there an OPTIONAL of that leaf.
   */
  function LeafAt(leaves: seq<Leaf>, place: Place): Option<Leaf>
    decreases |place|
  {
    if place == [] || place[0].branch >= |leaves| then None
    else
      var leaf := leaves[place[0].branch];
      if |place| == 1 then Some(leaf)
      else if place[1].optional >= |leaf.optionals| then None
      else LeafAt(leaf.optionals[place[1].optional].leaves, place[1..])
  }

  // ---- every operand belongs to the leaf at its place ----

  // What holds of the k-th of these places and patterns.
  ghost predicate Leads(leaves: seq<Leaf>, base: Place, opt: nat, place: Place, tp: TriplePattern) {
    && |place| > |base| && place[..|base|] == base && place[|base|].optional == opt
    && LeafAt(leaves, place[|base|..]).Some?
    && tp in LeafAt(leaves, place[|base|..]).value.bgp
  }

  lemma {:induction false} LeavesPlacesLead(leaves: seq<Leaf>, base: Place, opt: nat, k: nat)
    requires k < |LeavesPlaces(leaves, base, opt)|
    ensures |LeavesPlaces(leaves, base, opt)| == |LeavesPatterns(leaves)|
    ensures Leads(leaves, base, opt, LeavesPlaces(leaves, base, opt)[k], LeavesPatterns(leaves)[k])
    decreases leaves, 1
  {
    var init, last := leaves[..|leaves| - 1], leaves[|leaves| - 1];
    var here := base + [Step(opt, |leaves| - 1)];
    SameSize(init, base, opt);
    LeafSameSize(last, here);
    var n := |LeavesPlaces(init, base, opt)|;
    if k < n {
      LeavesPlacesLead(init, base, opt, k);
      MoreLeaves(leaves, base, opt, LeavesPlaces(init, base, opt)[k], LeavesPatterns(init)[k]);
    } else {
      LeafPlacesLead(last, here, k - n);
      var place := LeafPlaces(last, here)[k - n];
      LeadsFromLeaf(leaves, base, opt, place, LeafPatterns(last)[k - n]);
    }
  }

  lemma {:induction false} SameSize(leaves: seq<Leaf>, base: Place, opt: nat)
    ensures |LeavesPlaces(leaves, base, opt)| == |LeavesPatterns(leaves)|
    decreases leaves, 0
  {
    if leaves != [] {
      SameSize(leaves[..|leaves| - 1], base, opt);
      LeafSameSize(leaves[|leaves| - 1], base + [Step(opt, |leaves| - 1)]);
    }
  }

  lemma {:induction false} LeafSameSize(leaf: Leaf, place: Place)
    ensures |LeafPlaces(leaf, place)| == |LeafPatterns(leaf)|
    decreases leaf, 1
  {
    OptionalsSameSize(leaf.optionals, place);
  }

  lemma {:induction false} OptionalsSameSize(nfs: seq<NormalForm>, place: Place)
    ensures |OptionalsPlaces(nfs, place)| == |OptionalsPatterns(nfs)|
    decreases nfs, 0
  {
    if nfs != [] {
      OptionalsSameSize(nfs[..|nfs| - 1], place);
      SameSize(nfs[|nfs| - 1].leaves, place, |nfs| - 1);
    }
  }

  // A leaf found among the first leaves is found among all.
  lemma MoreLeaves(leaves: seq<Leaf>, base: Place, opt: nat, place: Place, tp: TriplePattern)
    requires leaves != [] && Leads(leaves[..|leaves| - 1], base, opt, place, tp)
    ensures Leads(leaves, base, opt, place, tp)
  {
    var step := place[|base|..][0];
    assert leaves[..|leaves| - 1][step.branch] == leaves[step.branch];
  }

  // Within one leaf: its own patterns sit at its place, those of its OPTIONALs below it.
  ghost predicate LeadsBelow(leaf: Leaf, here: Place, place: Place, tp: TriplePattern) {
    || (place == here && tp in leaf.bgp)
    || (|place| > |here| && place[..|here|] == here && place[|here|].optional < |leaf.optionals|
        && Leads(leaf.optionals[place[|here|].optional].leaves, here, place[|here|].optional, place, tp))
  }

  lemma LeadsFromLeaf(leaves: seq<Leaf>, base: Place, opt: nat, place: Place, tp: TriplePattern)
    requires leaves != [] && LeadsBelow(leaves[|leaves| - 1], base + [Step(opt, |leaves| - 1)], place, tp)
    ensures Leads(leaves, base, opt, place, tp)
  {
    var here, leaf := base + [Step(opt, |leaves| - 1)], leaves[|leaves| - 1];
    assert place[..|here|] == here;
    assert place[|base|] == here[|base|] == Step(opt, |leaves| - 1);
    assert place[..|base|] == here[..|base|] == base;
    var below := place[|base|..];
    assert below[0] == Step(opt, |leaves| - 1);
    if |place| > |here| {
      assert below[1] == place[|here|] && below[1..] == place[|here|..];
    }
  }

  lemma {:induction false} LeafPlacesLead(leaf: Leaf, here: Place, k: nat)
    requires k < |LeafPlaces(leaf, here)|
    ensures |LeafPlaces(leaf, here)| == |LeafPatterns(leaf)|
    ensures LeadsBelow(leaf, here, LeafPlaces(leaf, here)[k], LeafPatterns(leaf)[k])
    decreases leaf, 2
  {
    LeafSameSize(leaf, here);
    OptionalsSameSize(leaf.optionals, here);
    if k < |leaf.bgp| {
      assert LeafPlaces(leaf, here)[k] == here && LeafPatterns(leaf)[k] == leaf.bgp[k];
    } else {
      OptionalsPlacesLead(leaf.optionals, here, k - |leaf.bgp|);
    }
  }

  lemma {:induction false} OptionalsPlacesLead(nfs: seq<NormalForm>, here: Place, k: nat)
    requires k < |OptionalsPlaces(nfs, here)|
    ensures |OptionalsPlaces(nfs, here)| == |OptionalsPatterns(nfs)|
    ensures
      var place, tp := OptionalsPlaces(nfs, here)[k], OptionalsPatterns(nfs)[k];
      && |place| > |here| && place[..|here|] == here && place[|here|].optional < |nfs|
      && Leads(nfs[place[|here|].optional].leaves, here, place[|here|].optional, place, tp)
    decreases nfs, 2
  {
    var init, leaves := nfs[..|nfs| - 1], nfs[|nfs| - 1].leaves;
    OptionalsSameSize(nfs, here);
    OptionalsSameSize(init, here);
    SameSize(leaves, here, |init|);
    var n := |OptionalsPlaces(init, here)|;
    if k < n {
      OptionalsPlacesLead(init, here, k);
    } else {
      LeavesPlacesLead(leaves, here, |init|, k - n);
    }
  }

  /** The pattern of operand `i` is in the basic graph pattern of the leaf that its place leads to. */
  lemma OperandIsAtItsPlace(nf: NormalForm, i: nat)
    requires i < |Places(nf)|
    ensures |Places(nf)| == |Emit(nf).patterns|
    ensures |Places(nf)[i]| > 0 && Places(nf)[i][0].optional == 0
    ensures LeafAt(nf.leaves, Places(nf)[i]).Some?
    ensures Emit(nf).patterns[i] in LeafAt(nf.leaves, Places(nf)[i]).value.bgp
  {
    var order := EmitAligned(nf);
    LeavesPlacesLead(nf.leaves, [], 0, i);
    assert Places(nf)[i][0..] == Places(nf)[i];
  }

  // ---- every pattern has its operand ----

  lemma {:induction false} LeavesHavePlaces(leaves: seq<Leaf>, base: Place, opt: nat, place: Place, k: nat) returns (i: nat)
    requires |place| > |base| && place[..|base|] == base && place[|base|].optional == opt
    requires LeafAt(leaves, place[|base|..]).Some? && k < |LeafAt(leaves, place[|base|..]).value.bgp|
    ensures i < |LeavesPlaces(leaves, base, opt)| == |LeavesPatterns(leaves)|
    ensures LeavesPlaces(leaves, base, opt)[i] == place
    ensures LeavesPatterns(leaves)[i] == LeafAt(leaves, place[|base|..]).value.bgp[k]
    decreases leaves, 1
  {
    var init, last := leaves[..|leaves| - 1], leaves[|leaves| - 1];
    var below := place[|base|..];
    SameSize(leaves, base, opt);
    SameSize(init, base, opt);
    assert below[0] == place[|base|];
    if below[0].branch < |init| {
      assert init[below[0].branch] == leaves[below[0].branch];
      i := LeavesHavePlaces(init, base, opt, place, k);
    } else {
      var here := base + [Step(opt, |init|)];
      assert place[..|here|] == here;
      LeafSameSize(last, here);
      var j := LeafHasPlaces(last, here, place, leaves, k);
      i := |LeavesPlaces(init, base, opt)| + j;
    }
  }

  lemma {:induction false} LeafHasPlaces(leaf: Leaf, here: Place, place: Place, leaves: seq<Leaf>, k: nat) returns (i: nat)
    requires |place| >= |here| > 0 && place[..|here|] == here
    requires leaves != [] && here[|here| - 1].branch == |leaves| - 1 && leaf == leaves[|leaves| - 1]
    requires LeafAt(leaves, place[|here| - 1..]).Some? && k < |LeafAt(leaves, place[|here| - 1..]).value.bgp|
    ensures i < |LeafPlaces(leaf, here)| == |LeafPatterns(leaf)|
    ensures LeafPlaces(leaf, here)[i] == place
    ensures LeafPatterns(leaf)[i] == LeafAt(leaves, place[|here| - 1..]).value.bgp[k]
    decreases leaf, 2
  {
    var below := place[|here| - 1..];
    assert below[0] == place[..|here|][|here| - 1] == here[|here| - 1];
    LeafSameSize(leaf, here);
    OptionalsSameSize(leaf.optionals, here);
    if |place| == |here| {
      assert place == here;
      i := k;
    } else {
      assert below[1] == place[|here|] && below[1..] == place[|here|..];
      var j := OptionalsHavePlaces(leaf.optionals, here, place, k);
      i := |leaf.bgp| + j;
    }
  }

  lemma {:induction false} OptionalsHavePlaces(nfs: seq<NormalForm>, here: Place, place: Place, k: nat) returns (i: nat)
    requires |place| > |here| && place[..|here|] == here && place[|here|].optional < |nfs|
    requires
      var leaf := LeafAt(nfs[place[|here|].optional].leaves, place[|here|..]);
      leaf.Some? && k < |leaf.value.bgp|
    ensures i < |OptionalsPlaces(nfs, here)| == |OptionalsPatterns(nfs)|
    ensures OptionalsPlaces(nfs, here)[i] == place
    ensures OptionalsPatterns(nfs)[i] == LeafAt(nfs[place[|here|].optional].leaves, place[|here|..]).value.bgp[k]
    decreases nfs, 2
  {
    var init, leaves := nfs[..|nfs| - 1], nfs[|nfs| - 1].leaves;
    OptionalsSameSize(nfs, here);
    OptionalsSameSize(init, here);
    SameSize(leaves, here, |init|);
    if place[|here|].optional < |init| {
      i := OptionalsHavePlaces(init, here, place, k);
    } else {
      var j := LeavesHavePlaces(leaves, here, |init|, place, k);
      i := |OptionalsPlaces(init, here)| + j;
    }
  }

  /** Every pattern of every leaf, in whatever OPTIONAL and branch, has an operand at the place of its leaf. */
  lemma PatternHasOperand(nf: NormalForm, place: Place, k: nat) returns (i: nat)
    requires place != [] && place[0].optional == 0
    requires LeafAt(nf.leaves, place).Some? && k < |LeafAt(nf.leaves, place).value.bgp|
    ensures i < |Places(nf)| == |Emit(nf).patterns| && Places(nf)[i] == place
    ensures Emit(nf).patterns[i] == LeafAt(nf.leaves, place).value.bgp[k]
  {
    var order := EmitAligned(nf);
    assert place[0..] == place;
    i := LeavesHavePlaces(nf.leaves, [], 0, place, k);
  }

}
