/**
 JSON values as tokens, with a reader that knows nothing of query results, and what it finds in the
 documents that are written: one complete value with the variables and the solutions in their places.
 */
module JsonGrammar {
  import opened Wrappers
  import opened Sequences
  import opened Rdf
  import opened Entries
  import opened JsonResults

  // ---- values and their tokens ----

  datatype Json = Str(text: string) | Arr(items: seq<Json>) | Obj(members: seq<Member>)

  datatype Member = Member(name: string, value: Json)

  function Write(v: Json): seq<Token>
    decreases v, 0
  {
    match v
    case Str(text) => [Text(text)]
    case Arr(items) => [StartArray] + WriteItems(items) + [EndArray]
    case Obj(members) => [StartObject] + WriteMembers(members) + [EndObject]
  }

  function WriteItems(items: seq<Json>): seq<Token>
    decreases items, 0
  {
    if items == [] then [] else Write(items[0]) + WriteItems(items[1..])
  }

  // A key stands in front of each value in an object, and nowhere else.
  function WriteMembers(members: seq<Member>): seq<Token>
    decreases members, 0
  {
    if members == [] then [] else [Key(members[0].name)] + Write(members[0].value) + WriteMembers(members[1..])
  }

  // ---- the reader ----

  function Read(tokens: seq<Token>): (r: Option<Parsed<Json>>)
    ensures r.Some? ==> |r.value.rest| < |tokens|
    decreases |tokens|, 0
  {
    if tokens == [] then None
    else match tokens[0]
      case Text(text) => Some(Parsed(Str(text), tokens[1..]))
      case StartArray =>
        (match ReadItems(tokens[1..])
         case None => None
         case Some(items) => Some(Parsed(Arr(items.value), items.rest)))
      case StartObject =>
        (match ReadMembers(tokens[1..])
         case None => None
         case Some(members) => Some(Parsed(Obj(members.value), members.rest)))
      case _ => None
  }

  function ReadItems(tokens: seq<Token>): (r: Option<Parsed<seq<Json>>>)
    ensures r.Some? ==> |r.value.rest| < |tokens|
    decreases |tokens|, 1
  {
    if tokens == [] then None
    else if tokens[0] == EndArray then Some(Parsed([], tokens[1..]))
    else
      match Read(tokens)
      case None => None
      case Some(first) =>
        match ReadItems(first.rest)
        case None => None
        case Some(others) => Some(Parsed([first.value] + others.value, others.rest))
  }

  function ReadMembers(tokens: seq<Token>): (r: Option<Parsed<seq<Member>>>)
    ensures r.Some? ==> |r.value.rest| < |tokens|
    decreases |tokens|, 1
  {
    if tokens == [] then None
    else if tokens[0] == EndObject then Some(Parsed([], tokens[1..]))
    else if !tokens[0].Key? then None
    else
      match Read(tokens[1..])
      case None => None
      case Some(first) =>
        match ReadMembers(first.rest)
        case None => None
        case Some(others) => Some(Parsed([Member(tokens[0].name, first.value)] + others.value, others.rest))
  }

  /** Every value is read back, whatever follows it. */
  lemma {:induction false} ReadWrite(v: Json, rest: seq<Token>)
    ensures Read(Write(v) + rest) == Some(Parsed(v, rest))
    decreases v, 0
  {
    var tokens := Write(v) + rest;
    match v {
      case Str(text) =>
        assert tokens[1..] == rest;
      case Arr(items) =>
        assert tokens[1..] == WriteItems(items) + ([EndArray] + rest);
        ReadWriteItems(items, rest);
      case Obj(members) =>
        assert tokens[1..] == WriteMembers(members) + ([EndObject] + rest);
        ReadWriteMembers(members, rest);
    }
  }

  lemma {:induction false} ReadWriteItems(items: seq<Json>, rest: seq<Token>)
    ensures ReadItems(WriteItems(items) + ([EndArray] + rest)) == Some(Parsed(items, rest))
    decreases items, 0
  {
    hide Read, Write;
    var tokens := WriteItems(items) + ([EndArray] + rest);
    if items == [] {
      assert tokens == [EndArray] + rest;
    } else {
      var others := WriteItems(items[1..]) + ([EndArray] + rest);
      assert tokens == Write(items[0]) + others;
      ReadWrite(items[0], others);
      WriteBegins(items[0]);
      assert tokens[0] == Write(items[0])[0];
      ReadWriteItems(items[1..], rest);
      assert items == [items[0]] + items[1..];
    }
  }

  lemma {:induction false} ReadWriteMembers(members: seq<Member>, rest: seq<Token>)
    ensures ReadMembers(WriteMembers(members) + ([EndObject] + rest)) == Some(Parsed(members, rest))
    decreases members, 0
  {
    hide Read, Write;
    var tokens := WriteMembers(members) + ([EndObject] + rest);
    if members == [] {
      assert tokens == [EndObject] + rest;
    } else {
      var others := WriteMembers(members[1..]) + ([EndObject] + rest);
      assert tokens == [Key(members[0].name)] + (Write(members[0].value) + others);
      assert tokens[1..] == Write(members[0].value) + others;
      ReadWrite(members[0].value, others);
      ReadWriteMembers(members[1..], rest);
      assert members == [members[0]] + members[1..];
    }
  }

  lemma WriteBegins(v: Json)
    ensures Write(v) != [] && Write(v)[0] != EndArray && Write(v)[0] != EndObject
  {
  }

  // ---- balance ----

  ghost predicate Balanced(tokens: seq<Token>) {
    && multiset(tokens)[StartObject] == multiset(tokens)[EndObject]
    && multiset(tokens)[StartArray] == multiset(tokens)[EndArray]
  }

  lemma {:induction false} WriteIsBalanced(v: Json)
    ensures Balanced(Write(v))
    decreases v, 0
  {
    match v {
      case Str(_) =>
      case Arr(items) => ItemsAreBalanced(items);
      case Obj(members) => MembersAreBalanced(members);
    }
  }

  lemma {:induction false} ItemsAreBalanced(items: seq<Json>)
    ensures Balanced(WriteItems(items))
    decreases items, 0
  {
    if items != [] {
      WriteIsBalanced(items[0]);
      ItemsAreBalanced(items[1..]);
    }
  }

  lemma {:induction false} MembersAreBalanced(members: seq<Member>)
    ensures Balanced(WriteMembers(members))
    decreases members, 0
  {
    if members != [] {
      WriteIsBalanced(members[0].value);
      MembersAreBalanced(members[1..]);
    }
  }

  // ---- the values that are written ----

  function TermJson(t: Term): Json {
    match t
    case Iri(identifier) => Obj([Member("type", Str("uri")), Member("value", Str(identifier))])
    case BlankNode(identifier) => Obj([Member("type", Str("bnode")), Member("value", Str(identifier))])
    case Literal(lexical, datatypeIri, language) =>
      if datatypeIri == "http://www.w3.org/2001/XMLSchema#string" then
        Obj([Member("type", Str("literal")), Member("value", Str(lexical))])
      else if language != "" then
        Obj([Member("type", Str("literal")), Member("xml:lang", Str(language)), Member("value", Str(lexical))])
      else
        Obj([Member("type", Str("literal")), Member("datatype", Str(datatypeIri)), Member("value", Str(lexical))])
  }

  function BindingMembers(names: seq<string>, key: seq<Option<Term>>): (members: seq<Member>)
    ensures |members| == BoundCount(names, key)
  {
    if names == [] || key == [] then []
    else (if key[0].Some? then [Member(names[0], TermJson(key[0].value))] else []) + BindingMembers(names[1..], key[1..])
  }

  function SolutionItems(names: seq<string>, keys: seq<seq<Option<Term>>>): (items: seq<Json>)
    ensures |items| == |keys| && forall i :: 0 <= i < |keys| ==> items[i] == Obj(BindingMembers(names, keys[i]))
  {
    if keys == [] then [] else [Obj(BindingMembers(names, keys[0]))] + SolutionItems(names, keys[1..])
  }

  function NameItems(names: seq<string>): (items: seq<Json>)
    ensures |items| == |names| && forall i :: 0 <= i < |names| ==> items[i] == Str(names[i])
  {
    if names == [] then [] else [Str(names[0])] + NameItems(names[1..])
  }

  function DocumentJson(names: seq<string>, keys: seq<seq<Option<Term>>>): Json {
    Obj([
      Member("head", Obj([Member("vars", Arr(NameItems(names)))])),
      Member("results", Obj([Member("bindings", Arr(SolutionItems(names, keys)))]))])
  }

  // ---- they are what the writer writes ----

  lemma NoMembers()
    ensures WriteMembers([]) == []
  {
  }

  lemma OneMember(name: string, v: Json)
    ensures WriteMembers([Member(name, v)]) == [Key(name)] + Write(v)
  {
    assert [Member(name, v)][1..] == [];
  }

  lemma MoreMembers(first: Member, others: seq<Member>)
    ensures WriteMembers([first] + others) == [Key(first.name)] + Write(first.value) + WriteMembers(others)
  {
    assert ([first] + others)[1..] == others;
  }

  lemma TwoStrings(a: string, x: string, b: string, y: string)
    ensures Write(Obj([Member(a, Str(x)), Member(b, Str(y))])) == [StartObject, Key(a), Text(x), Key(b), Text(y), EndObject]
  {
    MoreMembers(Member(a, Str(x)), [Member(b, Str(y))]);
    OneMember(b, Str(y));
    assert [Member(a, Str(x)), Member(b, Str(y))] == [Member(a, Str(x))] + [Member(b, Str(y))];
  }

  lemma ThreeStrings(a: string, x: string, b: string, y: string, c: string, z: string)
    ensures Write(Obj([Member(a, Str(x)), Member(b, Str(y)), Member(c, Str(z))]))
      == [StartObject, Key(a), Text(x), Key(b), Text(y), Key(c), Text(z), EndObject]
  {
    var last := [Member(c, Str(z))];
    MoreMembers(Member(a, Str(x)), [Member(b, Str(y))] + last);
    MoreMembers(Member(b, Str(y)), last);
    OneMember(c, Str(z));
    assert [Member(a, Str(x)), Member(b, Str(y)), Member(c, Str(z))] == [Member(a, Str(x))] + ([Member(b, Str(y))] + last);
  }

  lemma TermIsJson(t: Term)
    ensures TermTokens(t) == Write(TermJson(t))
  {
    hide Write;
    match t {
      case Iri(identifier) => TwoStrings("type", "uri", "value", identifier);
      case BlankNode(identifier) => TwoStrings("type", "bnode", "value", identifier);
      case Literal(lexical, datatypeIri, language) =>
        TwoStrings("type", "literal", "value", lexical);
        ThreeStrings("type", "literal", "xml:lang", language, "value", lexical);
        ThreeStrings("type", "literal", "datatype", datatypeIri, "value", lexical);
    }
  }

  lemma {:induction false} BindingsAreMembers(names: seq<string>, key: seq<Option<Term>>)
    ensures BindingsTokens(names, key) == WriteMembers(BindingMembers(names, key))
  {
    hide TermTokens, TermJson, Write, WriteMembers;
    if names == [] || key == [] {
      NoMembers();
    } else {
      var others := BindingMembers(names[1..], key[1..]);
      BindingsAreMembers(names[1..], key[1..]);
      if key[0].Some? {
        TermIsJson(key[0].value);
        MoreMembers(Member(names[0], TermJson(key[0].value)), others);
        assert BindingMembers(names, key) == [Member(names[0], TermJson(key[0].value))] + others;
      } else {
        assert BindingMembers(names, key) == [] + others == others;
        assert BindingsTokens(names, key) == [] + BindingsTokens(names[1..], key[1..]);
      }
    }
  }

  lemma {:induction false} SolutionsAreItems(names: seq<string>, keys: seq<seq<Option<Term>>>)
    ensures SolutionsTokens(names, keys) == WriteItems(SolutionItems(names, keys))
  {
    hide BindingsTokens, BindingMembers, WriteMembers;
    if keys != [] {
      SolutionsAreItems(names, keys[1..]);
      BindingsAreMembers(names, keys[0]);
      assert SolutionItems(names, keys)[1..] == SolutionItems(names, keys[1..]);
    }
  }

  lemma {:induction false} NamesAreItems(names: seq<string>)
    ensures NamesTokens(names) == WriteItems(NameItems(names))
  {
    if names != [] {
      NamesAreItems(names[1..]);
      assert NameItems(names)[1..] == NameItems(names[1..]);
    }
  }

  // An object with a list as its only member.
  lemma ListInObject(name: string, items: seq<Json>)
    ensures Write(Obj([Member(name, Arr(items))])) == [StartObject, Key(name), StartArray] + WriteItems(items) + [EndArray, EndObject]
  {
    OneMember(name, Arr(items));
    hide WriteItems;
    assert Write(Arr(items)) == [StartArray] + WriteItems(items) + [EndArray];
  }

  lemma DocumentIsWritten(names: seq<string>, entries: seq<Entry>)
    ensures Document(names, entries) == Write(DocumentJson(names, Expanded(entries)))
  {
    var vars, solutions := NameItems(names), SolutionItems(names, Expanded(entries));
    var head, results := Obj([Member("vars", Arr(vars))]), Obj([Member("bindings", Arr(solutions))]);
    NamesAreItems(names);
    SolutionsAreItems(names, Expanded(entries));
    hide WriteItems, NamesTokens, SolutionsTokens, Expanded, NameItems, SolutionItems;
    ListInObject("vars", vars);
    ListInObject("bindings", solutions);
    MoreMembers(Member("head", head), [Member("results", results)]);
    OneMember("results", results);
    assert [Member("head", head), Member("results", results)] == [Member("head", head)] + [Member("results", results)];
    hide WriteMembers;
    assert Write(DocumentJson(names, Expanded(entries)))
      == [StartObject] + ([Key("head")] + Write(head) + ([Key("results")] + Write(results))) + [EndObject];
    hide Write;
    assert Document(names, entries)
      == [StartObject] + ([Key("head")] + ([StartObject, Key("vars"), StartArray] + WriteItems(vars) + [EndArray, EndObject])
         + ([Key("results")] + ([StartObject, Key("bindings"), StartArray] + WriteItems(solutions) + [EndArray, EndObject]))) + [EndObject];
  }

  // ---- what a client finds ----

  function Find(members: seq<Member>, name: string): Option<Json> {
    if members == [] then None
    else if members[0].name == name then Some(members[0].value)
    else Find(members[1..], name)
  }

  function At(v: Option<Json>, name: string): Option<Json> {
    if v.Some? && v.value.Obj? then Find(v.value.members, name) else None
  }

  lemma {:induction false} NotBound(names: seq<string>, key: seq<Option<Term>>, name: string)
    requires name !in names
    ensures Find(BindingMembers(names, key), name) == None
  {
    hide TermJson;
    if names != [] && key != [] {
      NotBound(names[1..], key[1..], name);
      FindBehind(names, key, name);
    }
  }

  // A name other than the first is found among the others.
  lemma FindBehind(names: seq<string>, key: seq<Option<Term>>, name: string)
    requires names != [] && key != [] && name != names[0]
    ensures Find(BindingMembers(names, key), name) == Find(BindingMembers(names[1..], key[1..]), name)
  {
    var others := BindingMembers(names[1..], key[1..]);
    if key[0].Some? {
      var first := Member(names[0], TermJson(key[0].value));
      assert BindingMembers(names, key) == [first] + others;
      assert ([first] + others)[1..] == others;
    } else {
      assert BindingMembers(names, key) == [] + others == others;
    }
  }

  lemma {:induction false} FindsTerm(names: seq<string>, key: seq<Option<Term>>, j: nat)
    requires NoDuplicates(names) && j < |names| && j < |key|
    ensures Find(BindingMembers(names, key), names[j]) == if key[j].None? then None else Some(TermJson(key[j].value))
  {
    hide TermJson;
    assert names == [names[0]] + names[1..];
    assert names[0] !in names[1..];
    if j == 0 {
      NotBound(names[1..], key[1..], names[0]);
      if key[0].None? {
        assert BindingMembers(names, key) == [] + BindingMembers(names[1..], key[1..]) == BindingMembers(names[1..], key[1..]);
      }
    } else {
      FindBehind(names, key, names[j]);
      FindsTerm(names[1..], key[1..], j - 1);
    }
  }

  /**
   A document is one complete JSON value, with as many opening as closing tokens. At head/vars a client
   finds the names, and at results/bindings one object per solution, with a member for each bound term.
   */
  lemma DocumentIsJson(names: seq<string>, entries: seq<Entry>)
    ensures Balanced(Document(names, entries))
    ensures
      var parsed := Read(Document(names, entries));
      && parsed.Some? && parsed.value.rest == []
      && var root := Some(parsed.value.value);
         var vars, bindings := At(At(root, "head"), "vars"), At(At(root, "results"), "bindings");
         && vars.Some? && vars.value.Arr? && |vars.value.items| == |names|
         && (forall i :: 0 <= i < |names| ==> vars.value.items[i] == Str(names[i]))
         && bindings.Some? && bindings.value.Arr? && |bindings.value.items| == Total(entries)
         && bindings.value.items == SolutionItems(names, Expanded(entries))
  {
    hide Read, Document, Expanded, SolutionItems, NameItems, Total, DocumentJson, Balanced, At;
    DocumentParses(names, entries);
    DocumentPlaces(names, Expanded(entries));
    ExpandedSize(entries);
  }

  lemma DocumentParses(names: seq<string>, entries: seq<Entry>)
    ensures Balanced(Document(names, entries))
    ensures Read(Document(names, entries)) == Some(Parsed(DocumentJson(names, Expanded(entries)), []))
  {
    hide Read, Write, Document, DocumentJson, Expanded, Balanced;
    var value := DocumentJson(names, Expanded(entries));
    DocumentIsWritten(names, entries);
    WriteIsBalanced(value);
    ReadWrite(value, []);
    assert Write(value) + [] == Write(value);
  }

  lemma DocumentPlaces(names: seq<string>, keys: seq<seq<Option<Term>>>)
    ensures At(At(Some(DocumentJson(names, keys)), "head"), "vars") == Some(Arr(NameItems(names)))
    ensures At(At(Some(DocumentJson(names, keys)), "results"), "bindings") == Some(Arr(SolutionItems(names, keys)))
  {
    hide Find, NameItems, SolutionItems;
    var head, results := Obj([Member("vars", Arr(NameItems(names)))]), Obj([Member("bindings", Arr(SolutionItems(names, keys)))]);
    assert |"head"| != |"results"|;
    FindInTwo("head", head, "results", results, "head");
    FindInTwo("head", head, "results", results, "results");
    FindInOne("vars", Arr(NameItems(names)));
    FindInOne("bindings", Arr(SolutionItems(names, keys)));
  }

  lemma FindInOne(a: string, v: Json)
    ensures Find([Member(a, v)], a) == Some(v)
  {
  }

  lemma FindInTwo(a: string, v: Json, b: string, w: Json, name: string)
    ensures Find([Member(a, v), Member(b, w)], name) == if a == name then Some(v) else if b == name then Some(w) else None
  {
    var others, none: seq<Member> := [Member(b, w)], [];
    assert [Member(a, v), Member(b, w)][1..] == others && others[1..] == none;
    assert Find(others, name) == if b == name then Some(w) else Find(none, name);
  }

  lemma FindInThree(a: string, v: Json, b: string, w: Json, c: string, x: Json, name: string)
    ensures Find([Member(a, v), Member(b, w), Member(c, x)], name)
      == if a == name then Some(v) else if b == name then Some(w) else if c == name then Some(x) else None
  {
    assert [Member(a, v), Member(b, w), Member(c, x)][1..] == [Member(b, w), Member(c, x)];
    FindInTwo(b, w, c, x, name);
  }

  /** Under distinct names, the object of a solution has exactly its bound terms, each under its name. */
  lemma SolutionObject(names: seq<string>, entries: seq<Entry>, i: nat, j: nat)
    requires NoDuplicates(names) && i < |Expanded(entries)|
    requires j < |names| && j < |Expanded(entries)[i]|
    ensures
      var key, solution := Expanded(entries)[i], SolutionItems(names, Expanded(entries))[i];
      && At(Some(solution), names[j]) == (if key[j].None? then None else Some(TermJson(key[j].value)))
      && solution.Obj? && |solution.members| == BoundCount(names, key)
  {
    FindsTerm(names, Expanded(entries)[i], j);
  }

  /**
   The object of a term, as section 3.2.2 of SPARQL 1.1 Query Results JSON Format describes it. A
   literal has no data type exactly if it is a plain string or carries a language tag.
   */
  lemma TermObject(t: Term)
    ensures At(Some(TermJson(t)), "type") == Some(Str(
      if t.Iri? then "uri" else if t.BlankNode? then "bnode" else "literal"))
    ensures At(Some(TermJson(t)), "value") == Some(Str(if t.Literal? then t.lexical else t.identifier))
    ensures At(Some(TermJson(t)), "datatype") ==
      if t.Literal? && t.datatypeIri != "http://www.w3.org/2001/XMLSchema#string" && t.language == ""
      then Some(Str(t.datatypeIri)) else None
    ensures At(Some(TermJson(t)), "xml:lang") ==
      if t.Literal? && t.datatypeIri != "http://www.w3.org/2001/XMLSchema#string" && t.language != ""
      then Some(Str(t.language)) else None
  {
    NamesDiffer();
    TermMember(t, "type");
    TermMember(t, "value");
    TermMember(t, "datatype");
    TermMember(t, "xml:lang");
  }

  lemma NamesDiffer()
    ensures "type" != "value" && "type" != "datatype" && "type" != "xml:lang"
    ensures "value" != "datatype" && "value" != "xml:lang" && "datatype" != "xml:lang"
  {
    assert |"type"| == 4 && |"value"| == 5 && |"datatype"| == 8 && |"xml:lang"| == 8;
    assert "datatype"[0] != "xml:lang"[0];
  }

  lemma TermMember(t: Term, name: string)
    ensures At(Some(TermJson(t)), name) ==
      if name == "type" then Some(Str(if t.Iri? then "uri" else if t.BlankNode? then "bnode" else "literal"))
      else if t.Literal? && t.datatypeIri != "http://www.w3.org/2001/XMLSchema#string" && t.language != "" && name == "xml:lang"
      then Some(Str(t.language))
      else if t.Literal? && t.datatypeIri != "http://www.w3.org/2001/XMLSchema#string" && t.language == "" && name == "datatype"
      then Some(Str(t.datatypeIri))
      else if name == "value" then Some(Str(if t.Literal? then t.lexical else t.identifier))
      else None
  {
    hide Find;
    match t {
      case Iri(identifier) => FindInTwo("type", Str("uri"), "value", Str(identifier), name);
      case BlankNode(identifier) => FindInTwo("type", Str("bnode"), "value", Str(identifier), name);
      case Literal(lexical, datatypeIri, language) =>
        FindInTwo("type", Str("literal"), "value", Str(lexical), name);
        FindInThree("type", Str("literal"), "xml:lang", Str(language), "value", Str(lexical), name);
        FindInThree("type", Str("literal"), "datatype", Str(datatypeIri), "value", Str(lexical), name);
    }
  }

}
