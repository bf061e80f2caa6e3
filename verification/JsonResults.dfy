/**
 SPARQL query results in JSON as a sequence of tokens (section 3 of SPARQL 1.1 Query Results JSON
 Format): what is written for a list of solutions, and a reader that gets them back.
 */
module JsonResults {
  import opened Wrappers
  import opened Sequences
  import opened Rdf
  import opened Entries

  datatype Token = StartObject | EndObject | StartArray | EndArray | Key(name: string) | Text(text: string)

  const XSD_STRING := "http://www.w3.org/2001/XMLSchema#string"
  const RDF_LANG_STRING := "http://www.w3.org/1999/02/22-rdf-syntax-ns#langString"

  // ---- what is written ----

  function TermTokens(t: Term): seq<Token> {
    [StartObject, Key("type")] +
    (match t
     case Iri(identifier) => [Text("uri"), Key("value"), Text(identifier)]
     case Literal(lexical, datatypeIri, language) => [Text("literal")] + Annotation(datatypeIri, language) + [Key("value"), Text(lexical)]
     case BlankNode(identifier) => [Text("bnode"), Key("value"), Text(identifier)])
    + [EndObject]
  }

  function Annotation(datatypeIri: string, language: string): seq<Token> {
    if datatypeIri == XSD_STRING then []
    else if language != "" then [Key("xml:lang"), Text(language)]
    else [Key("datatype"), Text(datatypeIri)]
  }

  // Names and terms are paired up as far as both go; unbound terms are left out.
  function BindingsTokens(names: seq<string>, key: seq<Option<Term>>): seq<Token> {
    if names == [] || key == [] then []
    else
      (if key[0].Some? then [Key(names[0])] + TermTokens(key[0].value) else [])
      + BindingsTokens(names[1..], key[1..])
  }

  function SolutionTokens(names: seq<string>, key: seq<Option<Term>>): seq<Token> {
    [StartObject] + BindingsTokens(names, key) + [EndObject]
  }

  function SolutionsTokens(names: seq<string>, keys: seq<seq<Option<Term>>>): seq<Token> {
    if keys == [] then [] else SolutionTokens(names, keys[0]) + SolutionsTokens(names, keys[1..])
  }

  function EntryTokens(names: seq<string>, entry: Entry): seq<Token> {
    SolutionsTokens(names, Repeated(entry.key, entry.value))
  }

  function NamesTokens(names: seq<string>): seq<Token> {
    if names == [] then [] else [Text(names[0])] + NamesTokens(names[1..])
  }

  const OPENING := [StartObject, Key("head"), StartObject, Key("vars"), StartArray]
  const BETWEEN := [EndObject, Key("results"), StartObject, Key("bindings"), StartArray]
  const FOOTER := [EndArray, EndObject, EndObject]

  function Header(names: seq<string>): seq<Token> {
    OPENING + NamesTokens(names) + [EndArray] + BETWEEN
  }

  // The document that is written for these entries in one go.
  function Document(names: seq<string>, entries: seq<Entry>): seq<Token> {
    Header(names) + SolutionsTokens(names, Expanded(entries)) + FOOTER
  }

  lemma {:induction false} SolutionsTokensConcat(names: seq<string>, a: seq<seq<Option<Term>>>, b: seq<seq<Option<Term>>>)
    ensures SolutionsTokens(names, a + b) == SolutionsTokens(names, a) + SolutionsTokens(names, b)
  {
    if a == [] {
      assert a + b == b;
    } else {
      assert (a + b)[1..] == a[1..] + b;
      SolutionsTokensConcat(names, a[1..], b);
    }
  }

  lemma ExpandedOneMore(names: seq<string>, entries: seq<Entry>, n: nat)
    requires n < |entries|
    ensures SolutionsTokens(names, Expanded(entries[..n + 1]))
      == SolutionsTokens(names, Expanded(entries[..n])) + EntryTokens(names, entries[n])
  {
    assert entries[..n + 1][..n] == entries[..n];
    SolutionsTokensConcat(names, Expanded(entries[..n]), Repeated(entries[n].key, entries[n].value));
  }

  // ---- a reader ----

  type Solution = map<string, Term>

  datatype Parsed<+T> = Parsed(value: T, rest: seq<Token>)

  datatype Results = Results(variables: seq<string>, solutions: seq<Solution>)

  function ParseTerm(tokens: seq<Token>): (r: Option<Parsed<Term>>)
    ensures r.Some? ==> |r.value.rest| < |tokens|
  {
    if |tokens| < 6 || tokens[0] != StartObject || tokens[1] != Key("type") || !tokens[4].Text? then None
    else if tokens[3] == Key("value") && tokens[5] == EndObject then
      if tokens[2] == Text("uri") then Some(Parsed(Iri(tokens[4].text), tokens[6..]))
      else if tokens[2] == Text("bnode") then Some(Parsed(BlankNode(tokens[4].text), tokens[6..]))
      else if tokens[2] == Text("literal") then Some(Parsed(Literal(tokens[4].text, XSD_STRING, ""), tokens[6..]))
      else None
    else if |tokens| < 8 || tokens[2] != Text("literal") || tokens[5] != Key("value") || !tokens[6].Text?
         || tokens[7] != EndObject then None
    else if tokens[3] == Key("xml:lang") then Some(Parsed(Literal(tokens[6].text, RDF_LANG_STRING, tokens[4].text), tokens[8..]))
    else if tokens[3] == Key("datatype") then Some(Parsed(Literal(tokens[6].text, tokens[4].text, ""), tokens[8..]))
    else None
  }

  function ParseBindings(tokens: seq<Token>, solution: Solution): (r: Option<Parsed<Solution>>)
    ensures r.Some? ==> |r.value.rest| < |tokens|
    decreases |tokens|
  {
    if tokens == [] then None
    else if tokens[0] == EndObject then Some(Parsed(solution, tokens[1..]))
    else if !tokens[0].Key? then None
    else
      match ParseTerm(tokens[1..])
      case None => None
      case Some(term) => ParseBindings(term.rest, solution[tokens[0].name := term.value])
  }

  function ParseSolutions(tokens: seq<Token>): Option<Parsed<seq<Solution>>>
    decreases |tokens|
  {
    if tokens == [] then None
    else if tokens[0] == EndArray then Some(Parsed([], tokens[1..]))
    else if tokens[0] != StartObject then None
    else
      match ParseBindings(tokens[1..], map[])
      case None => None
      case Some(first) =>
        match ParseSolutions(first.rest)
        case None => None
        case Some(others) => Some(Parsed([first.value] + others.value, others.rest))
  }

  function ParseNames(tokens: seq<Token>): Option<Parsed<seq<string>>> {
    if tokens == [] then None
    else if tokens[0] == EndArray then Some(Parsed([], tokens[1..]))
    else if !tokens[0].Text? then None
    else
      match ParseNames(tokens[1..])
      case None => None
      case Some(others) => Some(Parsed([tokens[0].text] + others.value, others.rest))
  }

  function Decode(tokens: seq<Token>): Option<Results> {
    if !(OPENING <= tokens) then None
    else
      match ParseNames(tokens[|OPENING|..])
      case None => None
      case Some(names) =>
        if !(BETWEEN <= names.rest) then None
        else
          match ParseSolutions(names.rest[|BETWEEN|..])
          case None => None
          case Some(solutions) =>
            if solutions.rest == [EndObject, EndObject] then Some(Results(names.value, solutions.value)) else None
  }

  // ---- what the reader finds ----

  // Without its own data type, a literal is read as a string, with or without a language tag.
  function AsRead(t: Term): Term {
    if !t.Literal? then t
    else if t.datatypeIri == XSD_STRING then Literal(t.lexical, XSD_STRING, "")
    else if t.language != "" then Literal(t.lexical, RDF_LANG_STRING, t.language)
    else t
  }

  // A language tag only comes with the data type of language-tagged strings.
  predicate IsWellFormed(t: Term) {
    t.Literal? && t.language != "" ==> t.datatypeIri == RDF_LANG_STRING
  }

  lemma WellFormedIsRead(t: Term)
    ensures AsRead(t) == t <==> IsWellFormed(t)
  {
    assert |XSD_STRING| != |RDF_LANG_STRING|;
  }

  // The solution that is written under these names, added to `solution`.
  function WithBindings(names: seq<string>, key: seq<Option<Term>>, solution: Solution): Solution {
    if names == [] || key == [] then solution
    else WithBindings(names[1..], key[1..], if key[0].Some? then solution[names[0] := AsRead(key[0].value)] else solution)
  }

  function SolutionsOf(names: seq<string>, keys: seq<seq<Option<Term>>>): (solutions: seq<Solution>)
    ensures |solutions| == |keys|
  {
    if keys == [] then [] else [WithBindings(names, keys[0], map[])] + SolutionsOf(names, keys[1..])
  }

  lemma TermRoundTrip(t: Term, rest: seq<Token>)
    ensures ParseTerm(TermTokens(t) + rest) == Some(Parsed(AsRead(t), rest))
  {
    var tokens := TermTokens(t);
    assert (tokens + rest)[|tokens|..] == rest;
    assert forall i :: 0 <= i < |tokens| ==> (tokens + rest)[i] == tokens[i];
  }

  lemma {:induction false} BindingsRoundTrip(names: seq<string>, key: seq<Option<Term>>, solution: Solution, rest: seq<Token>)
    ensures ParseBindings(BindingsTokens(names, key) + ([EndObject] + rest), solution)
      == Some(Parsed(WithBindings(names, key, solution), rest))
  {
    hide ParseTerm, TermTokens;
    if names == [] || key == [] {
      assert [] + ([EndObject] + rest) == [EndObject] + rest;
    } else {
      var others := BindingsTokens(names[1..], key[1..]) + ([EndObject] + rest);
      if key[0].Some? {
        var term := TermTokens(key[0].value);
        var tokens := BindingsTokens(names, key) + ([EndObject] + rest);
        assert tokens == [Key(names[0])] + (term + others);
        assert tokens[1..] == term + others;
        TermRoundTrip(key[0].value, others);
        BindingsRoundTrip(names[1..], key[1..], solution[names[0] := AsRead(key[0].value)], rest);
      } else {
        assert BindingsTokens(names, key) == BindingsTokens(names[1..], key[1..]);
        BindingsRoundTrip(names[1..], key[1..], solution, rest);
      }
    }
  }

  lemma {:induction false} SolutionsRoundTrip(names: seq<string>, keys: seq<seq<Option<Term>>>, rest: seq<Token>)
    ensures ParseSolutions(SolutionsTokens(names, keys) + ([EndArray] + rest)) == Some(Parsed(SolutionsOf(names, keys), rest))
  {
    hide ParseBindings, BindingsTokens, WithBindings;
    if keys == [] {
      assert [] + ([EndArray] + rest) == [EndArray] + rest;
    } else {
      var others := SolutionsTokens(names, keys[1..]) + ([EndArray] + rest);
      var bindings := BindingsTokens(names, keys[0]);
      var tokens := SolutionsTokens(names, keys) + ([EndArray] + rest);
      assert tokens == [StartObject] + (bindings + ([EndObject] + others));
      assert tokens[1..] == bindings + ([EndObject] + others);
      BindingsRoundTrip(names, keys[0], map[], others);
      SolutionsRoundTrip(names, keys[1..], rest);
    }
  }

  lemma {:induction false} NamesRoundTrip(names: seq<string>, rest: seq<Token>)
    ensures ParseNames(NamesTokens(names) + ([EndArray] + rest)) == Some(Parsed(names, rest))
  {
    if names == [] {
      assert [] + ([EndArray] + rest) == [EndArray] + rest;
    } else {
      var others := NamesTokens(names[1..]) + ([EndArray] + rest);
      var tokens := NamesTokens(names) + ([EndArray] + rest);
      assert tokens == [Text(names[0])] + others;
      assert tokens[1..] == others;
      NamesRoundTrip(names[1..], rest);
      assert names == [names[0]] + names[1..];
    }
  }

  /** Reading a document gives back its variables and every entry as often as its multiplicity says. */
  lemma DocumentRoundTrip(names: seq<string>, entries: seq<Entry>)
    ensures Decode(Document(names, entries)) == Some(Results(names, SolutionsOf(names, Expanded(entries))))
  {
    hide SolutionsTokens, NamesTokens, ParseNames, ParseSolutions, SolutionsOf, Expanded;
    var keys := Expanded(entries);
    var tokens := Document(names, entries);
    var end := [EndObject, EndObject];
    var solutions := SolutionsTokens(names, keys) + ([EndArray] + end);
    assert FOOTER == [EndArray] + end;
    assert tokens == OPENING + (NamesTokens(names) + ([EndArray] + (BETWEEN + solutions)));
    assert tokens[|OPENING|..] == NamesTokens(names) + ([EndArray] + (BETWEEN + solutions));
    NamesRoundTrip(names, BETWEEN + solutions);
    assert (BETWEEN + solutions)[|BETWEEN|..] == solutions;
    SolutionsRoundTrip(names, keys, end);
  }

  // ---- what a solution that was read binds ----

  function BoundCount(names: seq<string>, key: seq<Option<Term>>): nat {
    if names == [] || key == [] then 0
    else (if key[0].Some? then 1 else 0) + BoundCount(names[1..], key[1..])
  }

  lemma {:induction false} WithBindingsKeeps(names: seq<string>, key: seq<Option<Term>>, solution: Solution, name: string)
    requires name !in names
    ensures name in WithBindings(names, key, solution) <==> name in solution
    ensures name in solution ==> WithBindings(names, key, solution)[name] == solution[name]
  {
    if names != [] && key != [] {
      assert names[0] in names;
      WithBindingsKeeps(names[1..], key[1..], if key[0].Some? then solution[names[0] := AsRead(key[0].value)] else solution, name);
    }
  }

  /** Under distinct names, a variable is bound exactly if its term is, and to that term as it is read. */
  lemma {:induction false} SolutionBinds(names: seq<string>, key: seq<Option<Term>>, solution: Solution, i: nat)
    requires NoDuplicates(names) && forall name :: name in names ==> name !in solution
    requires i < |names| && i < |key|
    ensures names[i] in WithBindings(names, key, solution) <==> key[i].Some?
    ensures key[i].Some? ==> WithBindings(names, key, solution)[names[i]] == AsRead(key[i].value)
  {
    var name := names[0];
    assert names == [name] + names[1..];
    assert name !in names[1..];
    var solution' := if key[0].Some? then solution[name := AsRead(key[0].value)] else solution;
    if i == 0 {
      WithBindingsKeeps(names[1..], key[1..], solution', name);
    } else {
      SolutionBinds(names[1..], key[1..], solution', i - 1);
    }
  }

  lemma {:induction false} BindingCount(names: seq<string>, key: seq<Option<Term>>, solution: Solution)
    requires NoDuplicates(names) && forall name :: name in names ==> name !in solution
    ensures |WithBindings(names, key, solution)| == |solution| + BoundCount(names, key)
  {
    if names != [] && key != [] {
      var name := names[0];
      assert names == [name] + names[1..];
      assert name !in names[1..];
      BindingCount(names[1..], key[1..], if key[0].Some? then solution[name := AsRead(key[0].value)] else solution);
    }
  }

  function BindingsIn(solutions: seq<Solution>): nat {
    if solutions == [] then 0 else |solutions[0]| + BindingsIn(solutions[1..])
  }

  function TotalBindings(names: seq<string>, keys: seq<seq<Option<Term>>>): nat {
    if keys == [] then 0 else BoundCount(names, keys[0]) + TotalBindings(names, keys[1..])
  }

  lemma {:induction false} BindingTotals(names: seq<string>, keys: seq<seq<Option<Term>>>)
    requires NoDuplicates(names)
    ensures BindingsIn(SolutionsOf(names, keys)) == TotalBindings(names, keys)
  {
    if keys != [] {
      BindingCount(names, keys[0], map[]);
      BindingTotals(names, keys[1..]);
    }
  }

  lemma {:induction false} TotalBindingsConcat(names: seq<string>, a: seq<seq<Option<Term>>>, b: seq<seq<Option<Term>>>)
    ensures TotalBindings(names, a + b) == TotalBindings(names, a) + TotalBindings(names, b)
  {
    if a == [] {
      assert a + b == b;
    } else {
      assert (a + b)[1..] == a[1..] + b;
      TotalBindingsConcat(names, a[1..], b);
    }
  }

}
