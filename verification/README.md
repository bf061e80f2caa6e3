# A verified model of the Tentris query path

This project models five parts of the Tentris triple store and proves what they are for.

* **The SPARQL compiler** (`SelectAskQueryVisitor`). `Patterns` holds the syntax tree and the pure
  rewriting into a union of leaves; `Semantics` and `Bags` give patterns their meaning as bags of
  mappings (sections 18.2.2.6, 18.3 and 18.5 of SPARQL 1.1 Query Language); `UnionFree`,
  `WellDesignedness`, `Rewriting`, `Distribution` and `Preservation` prove that the rewriting keeps
  that meaning. `Visitor` is the visitor itself, with its stacks and loops, proved to emit exactly
  the pure rewriting; `Emission`, `OdgShape`, `OperandPlaces`, `Alignment` and `QueryGraph` say what is
  emitted, and `Blocks` which triple patterns a block written with `;` and `,` stands for.
* **The node store** (`PersistentNodeStorageBackendImpl`). `Interner` is the locking protocol as a
  step relation over any number of threads, `Linearizability` relates every interleaving to a
  sequential interner, `Progress` shows that nothing deadlocks, and `NodeStore` adds the constructor,
  the reserved ids and the size.
* **The query cache** (`SyncedLRUCache`). `LruCache` is the map into a doubly linked list, updated in
  place; `LruSpec` relates it to recency order and to strict caches over whole sequences of accesses.
* **Operands and the fast count** (`TripleStore`, `SPARQLQuery`). `Counting` relates slices to the
  solutions of one pattern, `QueryCount` proves when the size of a slice may stand for the count of a
  whole query.
* **The streaming JSON writer** (`SparqlJsonResultSAXWriter`, `SparqlStreamingEndpoint`).
  `JsonResults` is the document as tokens with a reader for it, `JsonGrammar` reads the same tokens as
  plain JSON, and `Streaming` is the writer and the loop that sends chunks.

`Wrappers`, `Sequences`, `Rdf` and `Entries` hold what these share. `dafny verify dfyconfig.toml`
checks the project.

How to read the compiler results: `ParseSelect` and `VisitWhereClause` say that the visitor emits
`Emit(Normalize(group))`; `NormalizePreservesMeaning` says that the leaves of `Normalize(group)` mean
what `group` means; `EmitAligned` and `EmitShape` say how those leaves appear as triple patterns,
operands, edges and connections; `OperandHasSolutions` says that an operand has the solutions of its
pattern.

Three places where the code does less than its surroundings suggest are stated as results:

* The visitor's comment names well-designed patterns as its domain, but nothing checks it:
  `OptionalFirstIsNotPreserved` gives a pattern outside the domain whose meaning changes.
* `count` takes the slice size whenever there is one triple pattern, wherever it sits.
  `FastCountIsRightExactly` gives the exact condition on the whole query under which that is the
  number of its solutions (`{ {} UNION { ?x p ?y } }` and `{ OPTIONAL { ?x p ?y } }` fail it), and
  `QueryMiscount` a graph for every query that violates it.
* Variable ids are 8-bit characters. `QueryIdsUnique` gives the exact bound for a whole query.

The comment on the cache calls `maxSize + elasticity` a limit up to which it may grow; after an access
it holds at most one entry less (`RunIsRecencyPrefix`), and the model follows the code.

## Model

| member | source | states |
|---|---|---|
| `Preservation.NormalizePreservesMeaning` | libs/sparql2tensor/src/dice/sparql2tensor/parser/visitors/SelectAskQueryVisitor.cpp:92-174 | For every graph and every well-designed group of triples blocks, nested groups, UNIONs and OPTIONALs, the leaves the visitor walks have exactly the solutions of the pattern, each with its cardinality |
| `Preservation.ExpandPreservesMeaning` | libs/sparql2tensor/src/dice/sparql2tensor/parser/visitors/SelectAskQueryVisitor.cpp:92-174 | The same for every call of the recursion, whatever unions, triples blocks and OPTIONALs are pending around it |
| `Preservation.OptionalFirstIsNotPreserved` | libs/sparql2tensor/src/dice/sparql2tensor/parser/visitors/SelectAskQueryVisitor.cpp:112-139 | Well-designedness is needed: on `{ OPTIONAL { ?x p ?y } ?x q ?z }` the pattern has no solution and the rewriting has one, for any two-triple graph of this kind |
| `Preservation.CollectKeepsMeaning` | libs/sparql2tensor/src/dice/sparql2tensor/parser/visitors/SelectAskQueryVisitor.cpp:94-110 | Collecting the entries of a group into the stacks keeps what the call state means when its branches are well designed |
| `Preservation.AlternativeWellDesigned` | libs/sparql2tensor/src/dice/sparql2tensor/parser/visitors/SelectAskQueryVisitor.cpp:161-172 | Every alternative is visited in a call state that is well designed again |
| `Preservation.OptionalsPreserveMeaning` | libs/sparql2tensor/src/dice/sparql2tensor/parser/visitors/SelectAskQueryVisitor.cpp:139-152 | The normal forms of a row of OPTIONALs extend any solutions exactly as the OPTIONALs themselves do |
| `WellDesignedness.WellDesignedByBranch` | libs/sparql2tensor/private-include/dice/sparql2tensor/parser/visitors/SelectAskQueryVisitor.hpp:119-125 | The precondition, stated entry by entry, holds if and only if every union-free branch is well designed |
| `WellDesignedness.EvalDomain` | libs/sparql2tensor/src/dice/sparql2tensor/parser/visitors/SelectAskQueryVisitor.cpp:92-174 | Every solution of a group binds the variables of all its branches and no variable the group does not mention |
| `WellDesignedness.OutsideVariablesAreBound` | libs/sparql2tensor/private-include/dice/sparql2tensor/parser/visitors/SelectAskQueryVisitor.hpp:119-125 | In a well-designed group, every solution of a branch binds all variables of the branch that are also used outside |
| `WellDesignedness.WellDesignedWeaken` | libs/sparql2tensor/private-include/dice/sparql2tensor/parser/visitors/SelectAskQueryVisitor.hpp:119-125 | A pattern stays well designed when fewer variables are used around it |
| `WellDesignedness.NoOptionalIsWellDesigned` | libs/sparql2tensor/private-include/dice/sparql2tensor/parser/visitors/SelectAskQueryVisitor.hpp:119-125 | Every pattern without OPTIONAL is well designed, whatever is around it |
| `WellDesignedness.OptionalIsWellDesigned` | libs/sparql2tensor/private-include/dice/sparql2tensor/parser/visitors/SelectAskQueryVisitor.hpp:119-125 | Triples, an OPTIONAL and triples after it are well designed if and only if the variables the OPTIONAL shares with the outside or with the triples after it occur in the triples before it, and its body is well designed where it stands |
| `Distribution.BranchesHaveSolutions` | libs/sparql2tensor/src/dice/sparql2tensor/parser/visitors/SelectAskQueryVisitor.cpp:158-172 | Without any precondition, a group has the solutions of its union-free branches taken together |
| `Distribution.ChoicesHaveSolutions` | libs/sparql2tensor/src/dice/sparql2tensor/parser/visitors/SelectAskQueryVisitor.cpp:158-172 | Without any precondition, joining with a row of unions has the solutions of joining with each choice of alternatives |
| `UnionFree.ChoicesCollect` | libs/sparql2tensor/src/dice/sparql2tensor/parser/visitors/SelectAskQueryVisitor.cpp:94-102 | Choosing from the pending unions and then inside the group enumerates, in order, the choices from all unions collected together |
| `UnionFree.BranchesAreUnionFree` | libs/sparql2tensor/src/dice/sparql2tensor/parser/visitors/SelectAskQueryVisitor.cpp:158-172 | The branches of a group hold no UNION of several alternatives |
| `UnionFree.BranchCount` | libs/sparql2tensor/src/dice/sparql2tensor/parser/visitors/SelectAskQueryVisitor.cpp:158-172 | There are as many branches as leaves: the product over the unions of the sum over their alternatives |
| `Rewriting.SortEntries` | libs/sparql2tensor/src/dice/sparql2tensor/parser/visitors/SelectAskQueryVisitor.cpp:107-118 | Within one well-designed branch all triples blocks may be joined first, then the nested groups, and the OPTIONALs added last |
| `Rewriting.JoinPastOptionals` | libs/sparql2tensor/src/dice/sparql2tensor/parser/visitors/SelectAskQueryVisitor.cpp:107-116 | A join after a row of OPTIONALs may be done before them when they share only bound variables with it |
| `Rewriting.JoinUnderOptionals` | libs/sparql2tensor/src/dice/sparql2tensor/parser/visitors/SelectAskQueryVisitor.cpp:112-139 | A join from the left goes under a row of OPTIONALs, in the same order of solutions |
| `Rewriting.OptionalRowsCommute` | libs/sparql2tensor/src/dice/sparql2tensor/parser/visitors/SelectAskQueryVisitor.cpp:103-105 | Two rows of OPTIONALs swap when everything they share is bound on their left |
| `Bags.JoinLeftJoin` | libs/sparql2tensor/src/dice/sparql2tensor/parser/visitors/SelectAskQueryVisitor.cpp:112-139 | `X join (B leftjoin C) = (X join B) leftjoin C` when B binds what C shares with X |
| `Bags.LeftJoinJoin` | libs/sparql2tensor/src/dice/sparql2tensor/parser/visitors/SelectAskQueryVisitor.cpp:107-139 | `(A leftjoin C) join B` has the solutions of `(A join B) leftjoin C` when A binds what C shares with B |
| `Bags.OptionalsCommute` | libs/sparql2tensor/src/dice/sparql2tensor/parser/visitors/SelectAskQueryVisitor.cpp:139-152 | Two left joins commute when the left side binds what they share |
| `Bags.JoinCommutes` | libs/sparql2tensor/src/dice/sparql2tensor/parser/visitors/SelectAskQueryVisitor.cpp:92-174 | Join is commutative with cardinalities |
| `Bags.JoinAssoc` | libs/sparql2tensor/src/dice/sparql2tensor/parser/visitors/SelectAskQueryVisitor.cpp:92-174 | Join is associative, in the same order of solutions |
| `Bags.LeftJoinIsJoinAndDiff` | libs/sparql2tensor/src/dice/sparql2tensor/parser/visitors/SelectAskQueryVisitor.cpp:139-152 | A left join is the join together with the solutions on the left that nothing on the right is compatible with (section 18.5 of SPARQL 1.1 Query Language) |
| `Bags.JoinOfTwo` | libs/sparql2tensor/src/dice/sparql2tensor/parser/visitors/SelectAskQueryVisitor.cpp:92-174 | Two mappings join to their merge if they agree on the variables they share, and to nothing otherwise |
| `Bags.JoinConcatRight` | libs/sparql2tensor/src/dice/sparql2tensor/parser/visitors/SelectAskQueryVisitor.cpp:158-172 | Join distributes over a union on its right, with cardinalities |
| `Bags.LeftJoinConcatLeft` | libs/sparql2tensor/src/dice/sparql2tensor/parser/visitors/SelectAskQueryVisitor.cpp:158-172 | Left join distributes over a union on its left |
| `Semantics.BgpCardinality` | libs/sparql2tensor/src/dice/sparql2tensor/parser/visitors/SelectAskQueryVisitor.cpp:112-116 | A mapping is a solution of a basic graph pattern (section 18.3 of SPARQL 1.1 Query Language) with cardinality one or not at all |
| `Semantics.GroupSolutions` | libs/sparql2tensor/src/dice/sparql2tensor/parser/visitors/SelectAskQueryVisitor.cpp:92-110 | What a group means, entry by entry: an alternative is added, a nested group or UNION is joined, an OPTIONAL is left-joined, and the block behind either is joined |
| `Patterns.CollectedIsSmaller` | libs/sparql2tensor/src/dice/sparql2tensor/parser/visitors/SelectAskQueryVisitor.cpp:97-172 | Termination: everything one call hands to its recursive calls is smaller than its own pending tree |
| `Patterns.ExpandLeafCount` | libs/sparql2tensor/src/dice/sparql2tensor/parser/visitors/SelectAskQueryVisitor.cpp:158-172 | The number of leaves is the product, over the unions pending and in the group, of the sum over their alternatives |
| `Patterns.ExpandAllLeafCount` | libs/sparql2tensor/src/dice/sparql2tensor/parser/visitors/SelectAskQueryVisitor.cpp:167-172 | The same for the alternatives of one union |
| `Patterns.LeavesInOrder` | libs/sparql2tensor/src/dice/sparql2tensor/parser/visitors/SelectAskQueryVisitor.cpp:158-172 | On a group of two UNIONs and an OPTIONAL between triples blocks: the last UNION varies slowest, the blocks of the group precede those of the alternatives, and every leaf has the OPTIONAL |
| `Visitor.SelectAskQueryVisitor.VisitWellDesignedPattern` | libs/sparql2tensor/src/dice/sparql2tensor/parser/visitors/SelectAskQueryVisitor.cpp:92-174 | Each call extends output and operand lists by exactly the leaves of the pure expansion of its stacks, appends its own blocks to the top frames, and leaves all lower frames as they were |
| `Visitor.SelectAskQueryVisitor.VisitAlternatives` | libs/sparql2tensor/src/dice/sparql2tensor/parser/visitors/SelectAskQueryVisitor.cpp:161-173 | Every alternative starts from the same frames; both stacks of frames are unchanged after the last one |
| `Visitor.SelectAskQueryVisitor.VisitAlternative` | libs/sparql2tensor/src/dice/sparql2tensor/parser/visitors/SelectAskQueryVisitor.cpp:163-171 | Visiting one alternative and resizing the top frames restores exactly the blocks that were there before |
| `Visitor.SelectAskQueryVisitor.VisitLeaf` | libs/sparql2tensor/src/dice/sparql2tensor/parser/visitors/SelectAskQueryVisitor.cpp:113-156 | One leaf: its triples, the links to parent and siblings, its OPTIONALs; all stacks but the two operand lists are restored |
| `Visitor.SelectAskQueryVisitor.VisitOptionals` | libs/sparql2tensor/src/dice/sparql2tensor/parser/visitors/SelectAskQueryVisitor.cpp:138-152 | The OPTIONALs of a leaf are walked in order, sharing one list of operands |
| `Visitor.SelectAskQueryVisitor.VisitOptional` | libs/sparql2tensor/src/dice/sparql2tensor/parser/visitors/SelectAskQueryVisitor.cpp:140-151 | One OPTIONAL is walked as its normal form; the list that keeps union branches apart is cleared after it |
| `Visitor.SelectAskQueryVisitor.CollectEntries` | libs/sparql2tensor/src/dice/sparql2tensor/parser/visitors/SelectAskQueryVisitor.cpp:94-110 | Collects the triples blocks, unions and OPTIONALs of a group, each in order |
| `Visitor.SelectAskQueryVisitor.EnterGroup` | libs/sparql2tensor/src/dice/sparql2tensor/parser/visitors/SelectAskQueryVisitor.cpp:113-135 | Emits a leaf and, inside an OPTIONAL, its dependencies and connections, and remembers its operands |
| `Visitor.SelectAskQueryVisitor.ConnectSiblings` | libs/sparql2tensor/src/dice/sparql2tensor/parser/visitors/SelectAskQueryVisitor.cpp:121-130 | Connects the operands of a leaf with those of earlier sibling OPTIONALs, both ways, leaving out branches of the same OPTIONAL |
| `Visitor.SelectAskQueryVisitor.LinkToParent` | libs/sparql2tensor/src/dice/sparql2tensor/parser/visitors/SelectAskQueryVisitor.cpp:118-135 | Links a leaf inside an OPTIONAL to its parent leaf and its siblings; does nothing at top level |
| `Visitor.SelectAskQueryVisitor.RegisterVar` | libs/sparql2tensor/src/dice/sparql2tensor/parser/visitors/SelectAskQueryVisitor.cpp:396-401 | A new variable gets the current 8-bit id, a known one keeps its id |
| `Visitor.SelectAskQueryVisitor.AddTp` | libs/sparql2tensor/src/dice/sparql2tensor/parser/visitors/SelectAskQueryVisitor.cpp:403-438 | A pattern becomes an operand, linked with every operand of its group in reverse order; no other frame changes |
| `Visitor.SelectAskQueryVisitor.LinkOperands` | libs/sparql2tensor/src/dice/sparql2tensor/parser/visitors/SelectAskQueryVisitor.cpp:414-435 | Two operands get one pair of edges per distinct shared variable, or one unlabelled pair |
| `Visitor.SelectAskQueryVisitor.GroupDependencies` | libs/sparql2tensor/src/dice/sparql2tensor/parser/visitors/SelectAskQueryVisitor.cpp:440-469 | Edges from every operand of one group to every operand of the other, in loop order |
| `Visitor.SelectAskQueryVisitor.VisitTriplesBlock` | libs/sparql2tensor/src/dice/sparql2tensor/parser/visitors/SelectAskQueryVisitor.cpp:176-220 | A block emits its triple patterns in the order they are written; which patterns these are is stated by `BlockPatternsAt` |
| `Blocks.BlockPatternsAt` | libs/sparql2tensor/src/dice/sparql2tensor/parser/visitors/SelectAskQueryVisitor.cpp:182-220 | Object k of property j of entry i of a block gives one pattern, at the place behind those of all earlier entries, properties and objects; there are as many patterns as objects |
| `Blocks.BlockPatternsMembers` | libs/sparql2tensor/src/dice/sparql2tensor/parser/visitors/SelectAskQueryVisitor.cpp:269-305 | A pattern is emitted for a block if and only if it is a subject of the block with one of its verbs and one of the objects of that verb |
| `Blocks.BlockSolutions` | libs/sparql2tensor/src/dice/sparql2tensor/parser/visitors/SelectAskQueryVisitor.cpp:112-116 | The solutions of a block bind exactly its variables and turn every subject, verb and object written in it into a triple of the graph |
| `Visitor.SelectAskQueryVisitor.VisitObject` | libs/sparql2tensor/src/dice/sparql2tensor/parser/visitors/SelectAskQueryVisitor.cpp:281-305 | Registers the object, appends the pattern and adds its operand; all variables of the pattern have ids by then |
| `Visitor.SelectAskQueryVisitor.VisitWhereClause` | libs/sparql2tensor/src/dice/sparql2tensor/parser/visitors/SelectAskQueryVisitor.cpp:64-90 | From empty stacks to empty stacks, emitting the normal form of the clause |
| `Visitor.SelectAskQueryVisitor.VisitSelectClause` | libs/sparql2tensor/src/dice/sparql2tensor/parser/visitors/SelectAskQueryVisitor.cpp:27-62 | DISTINCT is recorded; without asterisk and without error the projection lists the selected variables item by item; the two errors of the clause |
| `Visitor.ProjectionErrorExactly` | libs/sparql2tensor/src/dice/sparql2tensor/parser/visitors/SelectAskQueryVisitor.cpp:53-60 | An expression is refused exactly if one is selected; an empty projection is refused exactly if `SELECT *` meets no named variable or nothing is selected |
| `Visitor.SelectAskQueryVisitor.ProjectAll` | libs/sparql2tensor/src/dice/sparql2tensor/parser/visitors/SelectAskQueryVisitor.cpp:32-47 | `SELECT *` projects exactly the named variables of the triple patterns, each once |
| `Visitor.NamedVariablesExact` | libs/sparql2tensor/src/dice/sparql2tensor/parser/visitors/SelectAskQueryVisitor.cpp:34-47 | The projected variables are without duplicates, and a variable is among them if and only if it is named and occurs in a pattern |
| `Visitor.NamedVariablesInOrder` | libs/sparql2tensor/src/dice/sparql2tensor/parser/visitors/SelectAskQueryVisitor.cpp:36-43 | They are listed by first occurrence: the variables of any number of first positions are exactly those the list begins with |
| `Visitor.SelectAskQueryVisitor.VisitSelectQuery` | libs/sparql2tensor/src/dice/sparql2tensor/parser/visitors/SelectAskQueryVisitor.cpp:18-25 | A whole SELECT query, with the error for a missing WHERE clause |
| `Visitor.SelectAskQueryVisitor.VisitAskQuery` | libs/sparql2tensor/src/dice/sparql2tensor/parser/visitors/SelectAskQueryVisitor.cpp:10-16 | A whole ASK query, with the error for a missing WHERE clause |
| `Visitor.ParseSelect` | libs/sparql2tensor/src/dice/sparql2tensor/SPARQLQuery.cpp:24-36 | A fresh query object with the fields of the emitted normal form; item i of the SELECT clause is projected as variable i, `SELECT *` projects the named variables of the patterns, each once; each error exactly when its cause is there |
| `OdgShape.EmitShape` | libs/sparql2tensor/src/dice/sparql2tensor/parser/visitors/SelectAskQueryVisitor.cpp:112-157 | For every normal form of at most 256 triple patterns, the bags of edges and connections are exactly the expected ones, with labels compared as ids: nothing between top-level union leaves, parent to child only, and connections exactly between different sibling OPTIONALs |
| `OperandPlaces.OperandIsAtItsPlace` | libs/sparql2tensor/src/dice/sparql2tensor/parser/visitors/SelectAskQueryVisitor.cpp:97-157 | Operand i is the operand of a triple pattern of the leaf that its place leads to, through the chosen OPTIONALs and branches |
| `OperandPlaces.PatternHasOperand` | libs/sparql2tensor/src/dice/sparql2tensor/parser/visitors/SelectAskQueryVisitor.cpp:97-157 | Every triple pattern of every leaf has an operand with the place of that leaf |
| `OdgShape.OperandsAreNumbered` | libs/sparql2tensor/src/dice/sparql2tensor/parser/visitors/SelectAskQueryVisitor.cpp:403-438 | However many triple patterns there are, the operands of a leaf have consecutive numbers in 8 unsigned bits |
| `QueryGraph.EdgesWithinLeaf` | libs/sparql2tensor/src/dice/sparql2tensor/parser/visitors/SelectAskQueryVisitor.cpp:403-438 | Between two operands of one leaf: for each variable one edge each way exactly if both patterns mention it, and one unlabelled edge each way exactly if they share none |
| `QueryGraph.EdgesToChild` | libs/sparql2tensor/src/dice/sparql2tensor/parser/visitors/SelectAskQueryVisitor.cpp:440-469 | From a leaf to a leaf of one of its OPTIONALs: for each variable the child mentions, one edge per position it takes in the parent pattern; one unlabelled edge exactly if they share none |
| `QueryGraph.NoOtherEdges` | libs/sparql2tensor/src/dice/sparql2tensor/parser/visitors/SelectAskQueryVisitor.cpp:112-135 | Every edge connects two operands of one leaf or leads from a leaf to a leaf of one of its OPTIONALs |
| `QueryGraph.ConnectionsExactly` | libs/sparql2tensor/src/dice/sparql2tensor/parser/visitors/SelectAskQueryVisitor.cpp:121-130 | Two operands are connected, once each way, exactly if they sit in different OPTIONALs of the same leaf |
| `QueryGraph.GraphLinksVariables` | libs/sparql2tensor/src/dice/sparql2tensor/parser/visitors/SelectAskQueryVisitor.cpp:403-469 | With at most 256 variables as well, how often each edge occurs follows from where its patterns sit and the variables they share: one each way within a leaf, one per occurrence in the parent towards a child, an unlabelled one exactly if none is shared |
| `QueryGraph.LabelsAreShared` | libs/sparql2tensor/src/dice/sparql2tensor/parser/visitors/SelectAskQueryVisitor.cpp:418-427 | Every label is the id of a variable that both patterns of the edge mention |
| `OdgShape.WalkLeavesShape` | libs/sparql2tensor/src/dice/sparql2tensor/parser/visitors/SelectAskQueryVisitor.cpp:112-157 | The same for a walk that starts anywhere in the query, in any surroundings the visitor can be in |
| `OdgShape.PatternsCount` | libs/sparql2tensor/src/dice/sparql2tensor/parser/visitors/SelectAskQueryVisitor.cpp:403-438 | Within one leaf: one edge each way per distinct shared variable id, an unlabelled one exactly if none is shared |
| `OdgShape.PairCount` | libs/sparql2tensor/src/dice/sparql2tensor/parser/visitors/SelectAskQueryVisitor.cpp:414-435 | How often each edge occurs between two operands of a leaf |
| `OdgShape.EdgesBetweenCount` | libs/sparql2tensor/src/dice/sparql2tensor/parser/visitors/SelectAskQueryVisitor.cpp:440-469 | From parent to child: one edge per occurrence in the parent of a shared variable id, an unlabelled one exactly if none is shared |
| `OdgShape.EdgesBetweenBothWays` | libs/sparql2tensor/src/dice/sparql2tensor/parser/visitors/SelectAskQueryVisitor.cpp:440-469 | With the direction flag set, the same edges occur also in the opposite direction |
| `OdgShape.ConnectionsBetweenCount` | libs/sparql2tensor/src/dice/sparql2tensor/parser/visitors/SelectAskQueryVisitor.cpp:121-130 | Which connections a leaf adds: both directions, once, to operands of other OPTIONALs only |
| `Alignment.EmitAligned` | libs/sparql2tensor/src/dice/sparql2tensor/parser/visitors/SelectAskQueryVisitor.cpp:281-305 | Triple pattern i and operand i describe the same pattern, every variable has an id, and ids follow the order of registration |
| `Alignment.VariablesInOrder` | libs/sparql2tensor/src/dice/sparql2tensor/parser/visitors/SelectAskQueryVisitor.cpp:281-305 | Variables get their ids by first occurrence in the patterns, subject before predicate before object |
| `Alignment.OperandMatchesSliceKey` | libs/sparql2tensor/src/dice/sparql2tensor/SPARQLQuery.cpp:43-58 | The open positions of slice key i match the variable ids of operand i in order; the other positions hold the fixed terms |
| `Alignment.GetSliceKeys` | libs/sparql2tensor/src/dice/sparql2tensor/SPARQLQuery.cpp:43-58 | One key per triple pattern, open exactly where the pattern has variables |
| `Alignment.ProjectedVariablesHaveIds` | libs/triple-store/src/dice/triple-store/TripleStore.cpp:113-116 | Looking up the id of a projected variable never fails |
| `Alignment.IdsUniqueUpTo256` | libs/sparql2tensor/src/dice/sparql2tensor/parser/visitors/SelectAskQueryVisitor.cpp:396-401 | Across the signed 8-bit wrap, ids are unique if and only if at most 256 variables are registered; the 257th gets the id of the first |
| `Alignment.VarIdsCount` | libs/sparql2tensor/private-include/dice/sparql2tensor/parser/visitors/SelectAskQueryVisitor.hpp:22-22 | Ids count from the character a in a signed 8-bit character, with the wrap-around after 127 |
| `Alignment.EmittedIdsUnique` | libs/sparql2tensor/src/dice/sparql2tensor/parser/visitors/SelectAskQueryVisitor.cpp:396-401 | The same bound for a WHERE clause, in terms of the variables it mentions |
| `Alignment.QueryIdsUnique` | libs/sparql2tensor/src/dice/sparql2tensor/parser/visitors/SelectAskQueryVisitor.cpp:49-53 | For a whole SELECT query, whose selected variables draw ids too: ids are unique if and only if WHERE and SELECT together mention at most 256 variables |
| `Alignment.RegisterItemsNumbered` | libs/sparql2tensor/src/dice/sparql2tensor/parser/visitors/SelectAskQueryVisitor.cpp:49-53 | The selected variables are numbered behind those of the WHERE clause, by first occurrence |
| `Counting.GenerateOperands` | libs/triple-store/src/dice/triple-store/TripleStore.cpp:90-109 | Each operand has one row per triple that agrees with its key, ground patterns included |
| `Counting.RowsExactly` | libs/triple-store/src/dice/triple-store/TripleStore.cpp:90-109 | A triple gives an operand one row exactly if it has the fixed terms of the pattern, and the row lists its terms at the variables in order |
| `Counting.OperandHasSolutions` | libs/triple-store/src/dice/triple-store/TripleStore.cpp:90-109 | Read against the variables at the open positions, the rows of an operand are the solutions of its pattern, repeated variables included |
| `QueryCount.Count` | libs/triple-store/src/dice/triple-store/TripleStore.cpp:136-150 | The result is the slice size for one pattern and the sum of multiplicities otherwise; for entries that evaluate the whole query it is their total, if a query of one pattern is countable |
| `Entries.TotalIsSum` | libs/triple-store/src/dice/triple-store/TripleStore.cpp:144-149 | The total is the sum of the multiplicities |
| `Entries.ExpandedAt` | libs/endpoint/private-include/dice/endpoint/SparqlJsonResultSAXWriter.hpp:76-77 | Each entry is repeated as often as its multiplicity says, behind all earlier entries |
| `QueryCount.FastCountIsRightExactly` | libs/triple-store/src/dice/triple-store/TripleStore.cpp:138-143 | For every query that emits one pattern, the slice size is the number of its solutions on every graph if and only if it is a single leaf with that pattern, its pattern-free OPTIONALs repeat nothing or DISTINCT hides it, no variable repeats, and DISTINCT comes with all variables projected |
| `QueryCount.GroupCountIsRightExactly` | libs/triple-store/src/dice/triple-store/TripleStore.cpp:138-143 | The same for the solutions of a well-designed WHERE clause as it is written |
| `QueryCount.QueryMiscount` | libs/triple-store/src/dice/triple-store/TripleStore.cpp:138-143 | For every query outside that condition, a graph on which the shortcut returns a wrong count |
| `QueryCount.BareLeafMiscounts` | libs/triple-store/src/dice/triple-store/TripleStore.cpp:138-143 | A branch without patterns, or a lone pattern inside an OPTIONAL, miscounts on the empty graph |
| `QueryCount.RepetitionMiscounts` | libs/triple-store/src/dice/triple-store/TripleStore.cpp:138-143 | Pattern-free OPTIONALs that repeat solutions miscount on a graph of one triple |
| `QueryCount.PatternFreeOptionals` | libs/sparql2tensor/src/dice/sparql2tensor/parser/visitors/SelectAskQueryVisitor.cpp:139-152 | OPTIONALs without patterns repeat every solution on their left a fixed number of times, on every graph alike |
| `Counting.SliceCountsPatternExactly` | libs/triple-store/src/dice/triple-store/TripleStore.cpp:138-143 | For the solutions of the pattern alone: the slice size counts them on every graph if and only if no variable repeats and DISTINCT, if there, comes with all variables of the pattern projected |
| `Counting.Miscount` | libs/triple-store/src/dice/triple-store/TripleStore.cpp:138-143 | For every pattern outside that condition, a graph on which the slice size is not the number of its solutions |
| `Counting.GroundRows` | libs/triple-store/src/dice/triple-store/TripleStore.cpp:97-102 | A key without open positions has one empty row if the triple is in the graph and none otherwise |
| `Interner.StepKeepsInvariant` | libs/node-store/src/dice/node-store/PersistentNodeStorageBackendImpl.cpp:50-81 | Every step of every thread keeps: locks exclude each other, stored hashes and contents agree, ids carry the literal type of their contents, contents and ids are unique, ids are below the counter, and the two maps are inverse up to the entry being inserted |
| `Interner.StepGrows` | libs/node-store/src/dice/node-store/PersistentNodeStorageBackendImpl.cpp:50-81 | Entries, contents and ids are only ever added, so an iterator read after unlocking still yields the same id |
| `Linearizability.EveryExecutionLinearizes` | libs/node-store/src/dice/node-store/PersistentNodeStorageBackendImpl.cpp:50-81 | In every interleaving of any number of threads the effects are those of a sequential interner, each between its call and its return |
| `Linearizability.SameIdExactlyForEqualViews` | libs/node-store/src/dice/node-store/PersistentNodeStorageBackendImpl.cpp:83-113 | Two find-or-make calls of any threads return the same id if and only if their views are equal |
| `Linearizability.ReturnedIdsCarryLiteralType` | libs/node-store/src/dice/node-store/PersistentNodeStorageBackendImpl.cpp:83-90 | Every find-or-make returns an id, and the id carries the literal type of the view, in every execution |
| `Linearizability.InitialViewsKeepTheirIds` | libs/node-store/src/dice/node-store/PersistentNodeStorageBackendImpl.cpp:92-98 | What was registered at construction is found under its reserved id by every later call of any thread |
| `Linearizability.InsertionsSucceed` | libs/node-store/src/dice/node-store/PersistentNodeStorageBackendImpl.cpp:63-69 | At most one backend exists per view although map keys compare by address only, and both insertions always succeed |
| `Linearizability.IdAndViewRoundTrip` | libs/node-store/src/dice/node-store/PersistentNodeStorageBackendImpl.cpp:132-136 | While no thread is inserting, the maps are inverse: an id is held for a view if and only if the view is found for the id |
| `Linearizability.ReturnedIdsAreFound` | libs/node-store/src/dice/node-store/PersistentNodeStorageBackendImpl.cpp:132-136 | An id that a find-or-make has returned is found with its view in every later state in which the shared lock can be held, so that the look-up never fails for it |
| `Linearizability.FindIsRight` | libs/node-store/src/dice/node-store/MetallNodeTypeStorage.hpp:33-48 | A transparent look-up by content returns the entry of the sequential interner, or nothing if there is none |
| `Linearizability.FindSeesEarlierInsert` | libs/node-store/src/dice/node-store/PersistentNodeStorageBackendImpl.cpp:117-131 | A look-up that is called after a find-or-make of the same view has returned gives the same id |
| `Progress.NeverStuck` | libs/node-store/src/dice/node-store/PersistentNodeStorageBackendImpl.cpp:54-81 | The two locks never deadlock: while any call is under way, some thread can take a step of a call that is under way |
| `Progress.CallsAreShort` | libs/node-store/src/dice/node-store/PersistentNodeStorageBackendImpl.cpp:54-81 | However threads interleave, a thread takes at most eleven steps for each of its calls |
| `NodeStore.NodeStorageBackend.constructor` | libs/node-store/src/dice/node-store/PersistentNodeStorageBackendImpl.cpp:9-24 | Every reserved IRI is registered under its id, in inverse maps, and nothing else is; the other storages are empty and all counters start as configured |
| `NodeStore.NewIdsAvoidReserved` | libs/node-store/src/dice/node-store/PersistentNodeStorageBackendImpl.cpp:92-98 | No id handed out later collides with a reserved one |
| `NodeStore.RegisteredHolds` | libs/node-store/src/dice/node-store/PersistentNodeStorageBackendImpl.cpp:17-23 | Registering distinct IRIs one by one never finds a key in use |
| `NodeStore.SizeLinearizes` | libs/node-store/src/dice/node-store/PersistentNodeStorageBackendImpl.cpp:26-34 | The sum of the sizes of the four `id2data` maps, read at different moments, lies between the sums at start and end and is the sum at one moment in between |
| `NodeStore.SizeCountsViews` | libs/node-store/src/dice/node-store/PersistentNodeStorageBackendImpl.cpp:26-34 | While no thread is inserting, the size of a storage is the number of views it holds |
| `NodeStore.IdsAreConsecutive` | libs/node-store/src/dice/node-store/PersistentNodeStorageBackendImpl.cpp:85-98 | The counter has advanced by exactly the number of entries made, up to the one being inserted: no number is skipped |
| `NodeStore.TotalReaches` | libs/node-store/src/dice/node-store/PersistentNodeStorageBackendImpl.cpp:26-34 | Totals grow by single inserts and so take every value between two of them |
| `LruCache.SyncedLRUCache.Access` | libs/endpoint/src/dice/endpoint/SyncedLRUCache.hpp:104-117 | The value is the one built from the key; a throwing construction changes nothing; otherwise the key moves to the front and survives pruning, and the list, its links and the map stay consistent |
| `LruCache.SyncedLRUCache.Prune` | libs/endpoint/src/dice/endpoint/SyncedLRUCache.hpp:128-139 | Cuts a full list back to its maximal size from the back and reports how many nodes went |
| `LruCache.SyncedLRUCache.InsertFront` | libs/endpoint/src/dice/endpoint/SyncedLRUCache.hpp:109-110 | A new node is linked in front and indexed |
| `LruCache.SyncedLRUCache.MoveToFront` | libs/endpoint/src/dice/endpoint/SyncedLRUCache.hpp:114-114 | Splicing moves one node and leaves the order of the others |
| `LruCache.SyncedLRUCache.EvictBack` | libs/endpoint/src/dice/endpoint/SyncedLRUCache.hpp:134-135 | The last node leaves list and map together |
| `LruCache.SyncedLRUCache.Unlink` | libs/endpoint/src/dice/endpoint/SyncedLRUCache.hpp:114-135 | Taking out one node of the doubly linked list closes the gap in both directions |
| `LruCache.SyncedLRUCache.LinkFront` | libs/endpoint/src/dice/endpoint/SyncedLRUCache.hpp:109-114 | Linking a node in front keeps the list well linked in both directions |
| `LruCache.SyncedLRUCache.Clear` | libs/endpoint/src/dice/endpoint/SyncedLRUCache.hpp:98-102 | List and map become empty |
| `LruCache.SyncedLRUCache.Size` | libs/endpoint/src/dice/endpoint/SyncedLRUCache.hpp:88-91 | The size of the map is the length of the list |
| `LruCache.SyncedLRUCache.HoldsMostRecentKeys` | libs/endpoint/src/dice/endpoint/SyncedLRUCache.hpp:104-139 | At any time the keys are the most recently used ones in order; a strict cache of the maximal size holds nothing that is missing here, and a strict cache larger by the elasticity less one holds everything that is here |
| `LruCache.SyncedLRUCache.constructor` | libs/endpoint/src/dice/endpoint/SyncedLRUCache.hpp:80-81 | An empty cache |
| `LruCache.MoveToFrontIsTouch` | libs/endpoint/src/dice/endpoint/SyncedLRUCache.hpp:113-116 | What splicing does to the nodes is what a hit does to the keys |
| `LruCache.InsertIsTouch` | libs/endpoint/src/dice/endpoint/SyncedLRUCache.hpp:108-112 | What inserting and pruning does to the nodes is what a miss does to the keys, and the new node is still first |
| `LruCache.IndexedKeys` | libs/endpoint/src/dice/endpoint/SyncedLRUCache.hpp:65-66 | Map and list agree, so keys are distinct and their number is the size of the map |
| `LruSpec.RunIsRecencyPrefix` | libs/endpoint/src/dice/endpoint/SyncedLRUCache.hpp:104-139 | After any accesses the list is a prefix of all keys by most recent use, and its length stays within two bounds |
| `LruSpec.RecencyIsByLastUse` | libs/endpoint/src/dice/endpoint/SyncedLRUCache.hpp:104-117 | The recency order is by last use: what stands earlier has a use after which nothing that stands later is used |
| `LruSpec.AccessExactly` | libs/endpoint/src/dice/endpoint/SyncedLRUCache.hpp:104-139 | One access, case by case: a hit moves its key to the front and keeps the order of the others; a miss puts it in front and, only when the elasticity is used up, keeps just the most recent keys |
| `LruSpec.StrictIsRecencyPrefix` | libs/endpoint/src/dice/endpoint/SyncedLRUCache.hpp:71-79 | A strict LRU cache of any capacity holds exactly that many of the most recent keys |
| `LruSpec.HitsBetweenStrictCaches` | libs/endpoint/src/dice/endpoint/SyncedLRUCache.hpp:71-79 | Hits of a strict cache of the maximal size are hits here, and hits here are hits of a strict cache larger by the elasticity less one |
| `LruSpec.PruningIsAmortized` | libs/endpoint/src/dice/endpoint/SyncedLRUCache.hpp:128-139 | Evictions and present entries add up to the misses; each pruning that fires removes exactly `elasticity` entries, so firings times elasticity never exceed the misses |
| `Streaming.HandleQuery` | libs/endpoint/src/dice/endpoint/SparqlStreamingEndpoint.cpp:25-51 | The chunks sent are those of the stream of the entries, up to the first failed write; when every token takes one byte, each chunk before the last has more tokens than the buffer size and the last at most as many or the header, plus the footer; without failure the reported counters are the totals |
| `Streaming.BytesOfOne` | libs/endpoint/private-include/dice/endpoint/SparqlJsonResultSAXWriter.hpp:127-129 | No tokens take no bytes, and one token takes its width at the place where it is written |
| `Streaming.ChunksOfTokens` | libs/endpoint/src/dice/endpoint/SparqlStreamingEndpoint.cpp:32-41 | When every token takes one byte: each chunk sent has more tokens than the buffer size, and what stays pending has at most as many or is the header |
| `Streaming.ChunkingIsInvisible` | libs/endpoint/src/dice/endpoint/SparqlStreamingEndpoint.cpp:32-46 | For every buffer size and every width of tokens, the chunks put together are the document written in one go, and reading it gives back the solutions |
| `Streaming.ChunkSize` | libs/endpoint/src/dice/endpoint/SparqlStreamingEndpoint.cpp:34-41 | A chunk is sent as soon as it exceeds the buffer size, and without its last entry it fits or is the header |
| `Streaming.CutOffIsPrefix` | libs/endpoint/src/dice/endpoint/SparqlStreamingEndpoint.cpp:37-40 | After a failed write the client has received a beginning of the document |
| `Streaming.CountersAreTotals` | libs/endpoint/private-include/dice/endpoint/SparqlJsonResultSAXWriter.hpp:118-124 | Under distinct names the counters are the numbers of solutions and bindings in the document |
| `Streaming.NamesAreDistinct` | libs/endpoint/private-include/dice/endpoint/SparqlJsonResultSAXWriter.hpp:48-50 | Distinct named variables, as `SELECT *` projects them, have distinct names |
| `Streaming.SparqlJsonResultSaxWriter.Add` | libs/endpoint/private-include/dice/endpoint/SparqlJsonResultSAXWriter.hpp:74-125 | Writes the entry as often as its multiplicity says and counts solutions and bound terms |
| `Streaming.SparqlJsonResultSaxWriter.AddSolution` | libs/endpoint/private-include/dice/endpoint/SparqlJsonResultSAXWriter.hpp:77-121 | Pairs terms with names as far as both go and leaves out null terms |
| `Streaming.SparqlJsonResultSaxWriter.AddTerm` | libs/endpoint/private-include/dice/endpoint/SparqlJsonResultSAXWriter.hpp:82-118 | The object of one term, with data type or language tag where the format wants one |
| `Streaming.SparqlJsonResultSaxWriter.Close` | libs/endpoint/private-include/dice/endpoint/SparqlJsonResultSAXWriter.hpp:68-72 | Closes the three open levels |
| `Streaming.SparqlJsonResultSaxWriter.Clear` | libs/endpoint/private-include/dice/endpoint/SparqlJsonResultSAXWriter.hpp:148-150 | Empties the buffer and keeps the nesting |
| `Streaming.SparqlJsonResultSaxWriter.constructor` | libs/endpoint/private-include/dice/endpoint/SparqlJsonResultSAXWriter.hpp:42-66 | The header for the given variables; that it is the beginning of a complete JSON value with head/vars and results/bindings is stated by `DocumentIsJson` |
| `JsonResults.DocumentRoundTrip` | libs/endpoint/private-include/dice/endpoint/SparqlJsonResultSAXWriter.hpp:42-125 | Reading any document gives back its variables and every entry as often as its multiplicity says, each term as it is read |
| `JsonGrammar.DocumentIsJson` | libs/endpoint/private-include/dice/endpoint/SparqlJsonResultSAXWriter.hpp:42-72 | A document is one complete JSON value; a reader that knows only JSON finds the variable names at head/vars and one object per solution at results/bindings |
| `JsonGrammar.SolutionObject` | libs/endpoint/private-include/dice/endpoint/SparqlJsonResultSAXWriter.hpp:77-120 | Under distinct names, the object of a solution has exactly its bound terms as members, each under its name |
| `JsonGrammar.TermObject` | libs/endpoint/private-include/dice/endpoint/SparqlJsonResultSAXWriter.hpp:82-118 | The members type, value, datatype and xml:lang of a term, with the IRI of plain strings written out: a literal has no datatype exactly if it is a plain string or carries a language tag |
| `JsonGrammar.ReadWrite` | libs/endpoint/private-include/dice/endpoint/SparqlJsonResultSAXWriter.hpp:42-125 | The reader gets back every JSON value from its tokens, whatever follows |
| `JsonResults.TermRoundTrip` | libs/endpoint/private-include/dice/endpoint/SparqlJsonResultSAXWriter.hpp:82-118 | Every term that is written is read back, up to what the format can say about literals |
| `JsonResults.WellFormedIsRead` | libs/endpoint/private-include/dice/endpoint/SparqlJsonResultSAXWriter.hpp:89-107 | A term is read back unchanged if and only if a language tag comes only with the data type of language-tagged strings |
| `JsonResults.SolutionBinds` | libs/endpoint/private-include/dice/endpoint/SparqlJsonResultSAXWriter.hpp:78-81 | Under distinct names a variable is bound exactly if its term is, and to that term as it is read |
| `JsonResults.BindingTotals` | libs/endpoint/private-include/dice/endpoint/SparqlJsonResultSAXWriter.hpp:119-119 | The counted bindings are those of the solutions that are read |

## Left out

- Filters, MINUS, BIND, GRAPH, SERVICE, VALUES, sub-selects, property paths, collections and solution modifiers: the code rejects them or skips them silently; the syntax tree has triples blocks, nested groups, UNION and OPTIONAL.
- Lexing, parsing, prefixes and the text of terms: terms, variables and the syntax tree are values; an anonymous variable stands for a blank node in a query.
- The evaluator, the hypertrie and the internals of the operand dependency graph are external: a graph is a list of distinct triples, a slice is computed from it, and the dependency graph is the list of calls made on it. What an evaluator does with edges and connections is not part of this model; meaning is attached to the leaves that are walked.
- OdgShape.EmitShape: covers at most 256 triple patterns, because operand ids are 8-bit numbers; beyond that the ids repeat, which `Emission` models, and no claim about the graph is made. A leaf without triple patterns has no operand and so no edges.
- Preservation.NormalizePreservesMeaning: shows that well-designedness suffices and, by example, that it cannot be dropped; patterns outside of it whose meaning happens to survive are not characterised.
- QueryCount.Count: takes the entries that evaluation yields and the WHERE clause the query was parsed from as arguments, since the evaluator is external; with DISTINCT each of them counts one solution, and the copying of keys into the yielded entry is not modelled.
- Wrap-around of the four id counters and of `size_t` sums such as `max_size + elasticity` and the result counters: they are unbounded here.
- Memory: allocation failure, persistence, and the lifetime of map iterators after a lock is released. An iterator stands for the address it refers to; that entries never change or go away is proved.
- Lock fairness and timeouts in the node store: every interleaving the locks allow is covered, whether or not a particular waiting thread ever gets the lock.
- Literals are stored by lexical form and data type; specialised literal storage is always off in this store. Scopes of blank nodes are dropped by the store and do not occur.
- The mutex of the cache serialises its operations; each operation is modelled as a whole. A failing insertion into the hash map itself is not modelled.
- Escaping and the bytes of JSON: documents are token sequences, and how many bytes a token takes is an arbitrary function of everything written before it. The error for a term that is no IRI, literal or blank node cannot arise, since these are all terms there are.
- Streaming.HandleQuery: the status of a write is known as soon as it is made, and the status of the last write is ignored, as in the source; the buffer size is a parameter where the endpoint passes 100000.
- The HTTP server, request parsing, time limits, logging, bulk loading, and the functions on RDF lists (`get_rdf_list`, `is_rdf_list`).
- `group_connections`, which nothing calls, and the accessors that only forward.
