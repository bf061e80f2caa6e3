/** What evaluating a query yields: projected solutions with their multiplicities. */
module Entries {
  import opened Wrappers
  import opened Rdf

  // A projected solution (`None` where it is unbound) and how often it occurs.
  datatype Entry = Entry(key: seq<Option<Term>>, value: nat)

  function Repeated<T>(x: T, n: nat): (r: seq<T>)
    ensures |r| == n
  {
    if n == 0 then [] else [x] + Repeated(x, n - 1)
  }

  function Expanded(entries: seq<Entry>): seq<seq<Option<Term>>> {
    if entries == [] then [] else Expanded(entries[..|entries| - 1]) + Repeated(entries[|entries| - 1].key, entries[|entries| - 1].value)
  }

  function EntryKeys(entries: seq<Entry>): (keys: seq<seq<Option<Term>>>)
    ensures |keys| == |entries|
  {
    if entries == [] then [] else EntryKeys(entries[..|entries| - 1]) + [entries[|entries| - 1].key]
  }

  function Total(entries: seq<Entry>): nat {
    if entries == [] then 0 else Total(entries[..|entries| - 1]) + entries[|entries| - 1].value
  }

  lemma {:induction false} ExpandedSize(entries: seq<Entry>)
    ensures |Expanded(entries)| == Total(entries)
  {
    if entries != [] {
      ExpandedSize(entries[..|entries| - 1]);
    }
  }

  lemma {:induction false} UnitTotal(entries: seq<Entry>)
    requires forall i :: 0 <= i < |entries| ==> entries[i].value == 1
    ensures Total(entries) == |entries|
  {
    if entries != [] {
      UnitTotal(entries[..|entries| - 1]);
    }
  }

  lemma {:induction false} RepeatedAt<T>(x: T, n: nat, k: nat)
    requires k < n
    ensures Repeated(x, n)[k] == x
  {
    if k > 0 {
      RepeatedAt(x, n - 1, k - 1);
    }
  }

  /** The total is the sum of the multiplicities. */
  lemma TotalIsSum(entries: seq<Entry>, e: Entry)
    ensures Total([]) == 0 && Total(entries + [e]) == Total(entries) + e.value
  {
    assert (entries + [e])[..|entries|] == entries;
  }

  /** Each entry occurs as often as its multiplicity says, behind all earlier ones. */
  lemma {:induction false} ExpandedAt(entries: seq<Entry>, i: nat, k: nat)
    requires i < |entries| && k < entries[i].value
    ensures Total(entries[..i]) + k < |Expanded(entries)| == Total(entries)
    ensures Expanded(entries)[Total(entries[..i]) + k] == entries[i].key
  {
    var init, last := entries[..|entries| - 1], entries[|entries| - 1];
    ExpandedSize(entries);
    ExpandedSize(init);
    if i < |init| {
      assert init[..i] == entries[..i];
      ExpandedAt(init, i, k);
    } else {
      assert entries[..i] == init;
      RepeatedAt(last.key, last.value, k);
    }
  }

}
