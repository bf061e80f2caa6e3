/**
 The JSON writer with its buffer, and the endpoint that sends the buffer in chunks while solutions
 are still being found.
 */
module Streaming {
  import opened Wrappers
  import opened Sequences
  import opened Rdf
  import opened Entries
  import opened JsonResults

  // How many bytes a token takes, given everything that was written before it.
  type Width = (seq<Token>, Token) -> nat

  function Bytes(width: Width, before: seq<Token>, tokens: seq<Token>): nat {
    if tokens == [] then 0
    else Bytes(width, before, tokens[..|tokens| - 1]) + width(before + tokens[..|tokens| - 1], tokens[|tokens| - 1])
  }

  function Max(a: nat, b: nat): nat {
    if a <= b then b else a
  }

  function NamesOf(variables: seq<Variable>): (names: seq<string>)
    ensures |names| == |variables| && forall i :: 0 <= i < |variables| ==> names[i] == variables[i].name
  {
    if variables == [] then [] else [variables[0].name] + NamesOf(variables[1..])
  }

  class SparqlJsonResultSaxWriter {
    const names: seq<string>
    const bufferSize: nat
    const width: Width
    // What was written before the buffer was last cleared, which fixes the nesting it goes on from.
    var flushed: seq<Token>
    var buffer: seq<Token>
    var numberOfSolutions: nat
    var numberOfBindings: nat

    constructor (variables: seq<Variable>, bufferSize: nat, width: Width)
      ensures names == NamesOf(variables) && this.bufferSize == bufferSize && this.width == width
      ensures flushed == [] && buffer == Header(names)
      ensures numberOfSolutions == 0 && numberOfBindings == 0
    {
      names, this.bufferSize, this.width := NamesOf(variables), bufferSize, width;
      flushed, buffer, numberOfSolutions, numberOfBindings := [], OPENING, 0, 0;
      new;
      for i := 0 to |names|
        invariant names == NamesOf(variables) && flushed == [] && numberOfSolutions == 0 && numberOfBindings == 0
        invariant buffer + NamesTokens(names[i..]) == OPENING + NamesTokens(names)
      {
        assert names[i..][1..] == names[i + 1..];
        ghost var others := NamesTokens(names[i + 1..]);
        assert buffer + ([Text(names[i])] + others) == (buffer + [Text(names[i])]) + others;
        buffer := buffer + [Text(names[i])];
      }
      assert buffer == OPENING + NamesTokens(names);
      buffer := buffer + [EndArray] + BETWEEN;
    }

    method Close()
      modifies this`buffer
      ensures buffer == old(buffer) + FOOTER
    {
      buffer := buffer + FOOTER;
    }

    function Size(): nat
      reads this`flushed, this`buffer
    {
      Bytes(width, flushed, buffer)
    }

    predicate Full()
      reads this`flushed, this`buffer
    {
      Size() > bufferSize
    }

    method Clear()
      modifies this`flushed, this`buffer
      ensures flushed == old(flushed + buffer) && buffer == []
    {
      flushed, buffer := flushed + buffer, [];
    }

    method AddTerm(term: Term)
      modifies this`buffer
      ensures buffer == old(buffer) + TermTokens(term)
    {
      var tokens := [StartObject, Key("type")];
      match term {
        case Iri(identifier) =>
          tokens := tokens + [Text("uri"), Key("value"), Text(identifier)];
        case Literal(lexical, datatypeIri, language) =>
          tokens := tokens + [Text("literal")];
          if datatypeIri != XSD_STRING {
            if language != "" {
              tokens := tokens + [Key("xml:lang"), Text(language)];
            } else {
              tokens := tokens + [Key("datatype"), Text(datatypeIri)];
            }
          }
          tokens := tokens + [Key("value"), Text(lexical)];
        case BlankNode(identifier) =>
          tokens := tokens + [Text("bnode"), Key("value"), Text(identifier)];
      }
      buffer := buffer + tokens + [EndObject];
      assert tokens + [EndObject] == TermTokens(term);
    }

    lemma SolutionIsBindings(key: seq<Option<Term>>, before: seq<Token>)
      ensures before + [StartObject] + BindingsTokens(names, key) + [EndObject] == before + SolutionTokens(names, key)
    {
    }

    method AddSolution(key: seq<Option<Term>>)
      modifies this`buffer, this`numberOfBindings
      ensures buffer == old(buffer) + SolutionTokens(names, key)
      ensures numberOfBindings == old(numberOfBindings) + BoundCount(names, key)
    {
      hide TermTokens, SolutionTokens, Repeated;
      buffer := buffer + [StartObject];
      ghost var start := buffer;
      var n := if |key| <= |names| then |key| else |names|;
      for i := 0 to n
        invariant buffer + BindingsTokens(names[i..], key[i..]) == start + BindingsTokens(names, key)
        invariant numberOfBindings + BoundCount(names[i..], key[i..]) == old(numberOfBindings) + BoundCount(names, key)
      {
        ghost var before, others := buffer, BindingsTokens(names[i + 1..], key[i + 1..]);
        assert names[i..][1..] == names[i + 1..] && key[i..][1..] == key[i + 1..];
        if key[i].Some? {
          buffer := buffer + [Key(names[i])];
          AddTerm(key[i].value);
          numberOfBindings := numberOfBindings + 1;
          assert buffer + others == before + ([Key(names[i])] + TermTokens(key[i].value) + others);
        }
      }
      assert BindingsTokens(names[n..], key[n..]) == [];
      assert buffer == start + BindingsTokens(names, key);
      buffer := buffer + [EndObject];
      SolutionIsBindings(key, old(buffer));
    }

    /** The entry as often as it occurs. */
    method Add(entry: Entry)
      modifies this`buffer, this`numberOfSolutions, this`numberOfBindings
      ensures buffer == old(buffer) + EntryTokens(names, entry)
      ensures numberOfSolutions == old(numberOfSolutions) + entry.value
      ensures numberOfBindings == old(numberOfBindings) + TotalBindings(names, Repeated(entry.key, entry.value))
    {
      hide SolutionTokens, BoundCount;
      for i := 0 to entry.value
        invariant buffer + SolutionsTokens(names, Repeated(entry.key, entry.value - i)) == old(buffer) + EntryTokens(names, entry)
        invariant numberOfBindings + TotalBindings(names, Repeated(entry.key, entry.value - i))
          == old(numberOfBindings) + TotalBindings(names, Repeated(entry.key, entry.value))
        modifies this`buffer, this`numberOfBindings
      {
        ghost var before, others := buffer, Repeated(entry.key, entry.value - i - 1);
        assert Repeated(entry.key, entry.value - i)[1..] == others;
        AddSolution(entry.key);
        assert buffer + SolutionsTokens(names, others) == before + (SolutionTokens(names, entry.key) + SolutionsTokens(names, others));
      }
      numberOfSolutions := numberOfSolutions + entry.value;
    }

  }

  // ---- the endpoint ----

  // The chunks that are sent while solutions come in, and what is still in the buffer.
  datatype Stream = Stream(chunks: seq<seq<Token>>, pending: seq<Token>)

  function Flat(chunks: seq<seq<Token>>): seq<Token> {
    if chunks == [] then [] else Flat(chunks[..|chunks| - 1]) + chunks[|chunks| - 1]
  }

  function StreamOf(names: seq<string>, entries: seq<Entry>, bufferSize: nat, width: Width): Stream {
    if entries == [] then Stream([], Header(names))
    else Streamed(StreamOf(names, entries[..|entries| - 1], bufferSize, width), names, entries[|entries| - 1], bufferSize, width)
  }

  function Streamed(stream: Stream, names: seq<string>, entry: Entry, bufferSize: nat, width: Width): Stream {
    var pending := stream.pending + EntryTokens(names, entry);
    if Bytes(width, Flat(stream.chunks), pending) > bufferSize then Stream(stream.chunks + [pending], [])
    else Stream(stream.chunks, pending)
  }

  /**
   `fails` tells whether sending the k-th chunk fails, after which nothing else is sent. The last
   chunk is sent without looking back.
   */
  method HandleQuery(variables: seq<Variable>, entries: seq<Entry>, bufferSize: nat, width: Width, fails: nat -> bool)
    returns (chunks: seq<seq<Token>>, done: bool, solutions: nat, bindings: nat)
    ensures
      var stream := StreamOf(NamesOf(variables), entries, bufferSize, width);
      && (done <==> forall k :: 0 <= k < |stream.chunks| ==> !fails(k))
      && (done ==> chunks == stream.chunks + [stream.pending + FOOTER])
      && (!done ==> chunks != [] && chunks <= stream.chunks && fails(|chunks| - 1) && forall k :: 0 <= k < |chunks| - 1 ==> !fails(k))
    ensures done ==> chunks != [] && ((forall b, t :: width(b, t) == 1) ==>
      && (forall k :: 0 <= k < |chunks| - 1 ==> |chunks[k]| > bufferSize)
      && |chunks[|chunks| - 1]| <= Max(bufferSize, |Header(NamesOf(variables))|) + |FOOTER|)
    ensures done ==>
      && solutions == |Expanded(entries)|
      && bindings == TotalBindings(NamesOf(variables), Expanded(entries))
  {
    hide StreamOf, Expanded, TotalBindings, Bytes, EntryTokens, NamesOf, Header, Flat, Repeated;
    FlatOfNothing();
    ghost var names := NamesOf(variables);
    StreamStarts(names, entries, bufferSize, width);
    var writer := new SparqlJsonResultSaxWriter(variables, bufferSize, width);
    chunks, done, solutions, bindings := [], false, 0, 0;
    for i := 0 to |entries|
      invariant Stream(chunks, writer.buffer) == StreamOf(names, entries[..i], bufferSize, width)
      invariant writer.flushed == Flat(chunks)
      invariant forall k :: 0 <= k < |chunks| ==> !fails(k)
      invariant writer.numberOfSolutions == |Expanded(entries[..i])|
      invariant writer.numberOfBindings == TotalBindings(names, Expanded(entries[..i]))
    {
      StreamGoesOn(names, entries, i, bufferSize, width);
      ghost var before := chunks;
      writer.Add(entries[i]);
      if writer.Full() {
        chunks := chunks + [writer.buffer];
        FlatAppend(before, writer.buffer);
        if fails(|chunks| - 1) {
          LaterChunks(names, entries, i + 1, bufferSize, width);
          return;
        }
        writer.Clear();
      }
    }
    assert entries[..|entries|] == entries;
    writer.Close();
    chunks := chunks + [writer.buffer];
    done, solutions, bindings := true, writer.numberOfSolutions, writer.numberOfBindings;
    if forall b, t :: width(b, t) == 1 {
      ChunksOfTokens(names, entries, bufferSize, width);
    }
  }

  lemma StreamStarts(names: seq<string>, entries: seq<Entry>, bufferSize: nat, width: Width)
    ensures StreamOf(names, entries[..0], bufferSize, width) == Stream([], Header(names))
    ensures Expanded(entries[..0]) == [] && TotalBindings(names, Expanded(entries[..0])) == 0
  {
  }

  lemma StreamGoesOn(names: seq<string>, entries: seq<Entry>, i: nat, bufferSize: nat, width: Width)
    requires i < |entries|
    ensures StreamOf(names, entries[..i + 1], bufferSize, width)
      == Streamed(StreamOf(names, entries[..i], bufferSize, width), names, entries[i], bufferSize, width)
    ensures |Expanded(entries[..i + 1])| == |Expanded(entries[..i])| + entries[i].value
    ensures TotalBindings(names, Expanded(entries[..i + 1]))
      == TotalBindings(names, Expanded(entries[..i])) + TotalBindings(names, Repeated(entries[i].key, entries[i].value))
  {
    assert entries[..i + 1][..i] == entries[..i];
    TotalBindingsConcat(names, Expanded(entries[..i]), Repeated(entries[i].key, entries[i].value));
  }

  // Chunks that were sent are not taken back.
  lemma {:induction false} LaterChunks(names: seq<string>, entries: seq<Entry>, n: nat, bufferSize: nat, width: Width)
    requires n <= |entries|
    ensures StreamOf(names, entries[..n], bufferSize, width).chunks <= StreamOf(names, entries, bufferSize, width).chunks
  {
    if n == |entries| {
      assert entries[..n] == entries;
    } else {
      var init := entries[..|entries| - 1];
      LaterChunks(names, init, n, bufferSize, width);
      assert init[..n] == entries[..n];
    }
  }

  // ---- chunking is invisible ----

  lemma FlatOfNothing()
    ensures Flat([]) == []
  {
  }

  lemma FlatAppend(chunks: seq<seq<Token>>, chunk: seq<Token>)
    ensures Flat(chunks + [chunk]) == Flat(chunks) + chunk
  {
    assert (chunks + [chunk])[..|chunks|] == chunks;
  }

  lemma StreamedLosesNothing(stream: Stream, names: seq<string>, entry: Entry, bufferSize: nat, width: Width)
    ensures
      var after := Streamed(stream, names, entry, bufferSize, width);
      Flat(after.chunks) + after.pending == Flat(stream.chunks) + stream.pending + EntryTokens(names, entry)
  {
    hide Flat, EntryTokens, Bytes;
    FlatAppend(stream.chunks, stream.pending + EntryTokens(names, entry));
  }

  lemma {:induction false} StreamHoldsAll(names: seq<string>, entries: seq<Entry>, bufferSize: nat, width: Width)
    ensures
      var stream := StreamOf(names, entries, bufferSize, width);
      Flat(stream.chunks) + stream.pending == Header(names) + SolutionsTokens(names, Expanded(entries))
  {
    hide Expanded, SolutionsTokens, EntryTokens, Streamed, Header;
    if entries == [] {
      NothingExpanded(names);
    } else {
      var n := |entries| - 1;
      StreamHoldsAll(names, entries[..n], bufferSize, width);
      StreamedLosesNothing(StreamOf(names, entries[..n], bufferSize, width), names, entries[n], bufferSize, width);
      ExpandedOneMore(names, entries, n);
      assert entries[..n + 1] == entries;
    }
  }

  lemma NothingExpanded(names: seq<string>)
    ensures Expanded([]) == [] && SolutionsTokens(names, Expanded([])) == []
  {
  }

  /**
   However the document is cut into chunks, the client receives what would have been written in one
   go, and reads the solutions with their multiplicities in it.
   */
  lemma ChunkingIsInvisible(names: seq<string>, entries: seq<Entry>, bufferSize: nat, width: Width)
    ensures
      var stream := StreamOf(names, entries, bufferSize, width);
      && Flat(stream.chunks + [stream.pending + FOOTER]) == Document(names, entries)
      && Decode(Flat(stream.chunks + [stream.pending + FOOTER])) == Some(Results(names, SolutionsOf(names, Expanded(entries))))
  {
    hide StreamOf, SolutionsTokens, Header, Decode, Expanded;
    var stream := StreamOf(names, entries, bufferSize, width);
    FlatAppend(stream.chunks, stream.pending + FOOTER);
    StreamHoldsAll(names, entries, bufferSize, width);
    hide Flat;
    assert Flat(stream.chunks) + (stream.pending + FOOTER) == Flat(stream.chunks) + stream.pending + FOOTER;
    DocumentRoundTrip(names, entries);
  }

  lemma {:induction false} FlatPrefix(sent: seq<seq<Token>>, chunks: seq<seq<Token>>)
    requires sent <= chunks
    ensures Flat(sent) <= Flat(chunks)
    decreases |chunks|
  {
    if |sent| == |chunks| {
      assert sent == chunks;
    } else {
      FlatPrefix(sent, chunks[..|chunks| - 1]);
    }
  }

  /** A client that is cut off has received a beginning of the document. */
  lemma CutOffIsPrefix(names: seq<string>, entries: seq<Entry>, bufferSize: nat, width: Width, sent: seq<seq<Token>>)
    requires sent <= StreamOf(names, entries, bufferSize, width).chunks
    ensures Flat(sent) <= Document(names, entries)
  {
    hide StreamOf, SolutionsTokens, Header, Expanded, Flat;
    FlatPrefix(sent, StreamOf(names, entries, bufferSize, width).chunks);
    StreamHoldsAll(names, entries, bufferSize, width);
  }

  // ---- the size of chunks ----

  lemma {:induction false} BytesConcat(width: Width, before: seq<Token>, a: seq<Token>, b: seq<Token>)
    ensures Bytes(width, before, a + b) == Bytes(width, before, a) + Bytes(width, before + a, b)
  {
    if b == [] {
      assert a + b == a;
    } else {
      var init := b[..|b| - 1];
      assert (a + b)[..|a + b| - 1] == a + init;
      assert before + (a + init) == before + a + init;
      BytesConcat(width, before, a, init);
    }
  }

  /** With `BytesConcat`, this says that the bytes of tokens are the sum of their widths, one after another. */
  lemma BytesOfOne(width: Width, before: seq<Token>, t: Token)
    ensures Bytes(width, before, []) == 0 && Bytes(width, before, [t]) == width(before, t)
  {
    assert [t][..0] == [] && before + [] == before;
  }

  lemma {:induction false} BytesOfUnits(width: Width, before: seq<Token>, tokens: seq<Token>, size: nat)
    requires forall b, t :: width(b, t) == size
    ensures Bytes(width, before, tokens) == |tokens| * size
  {
    if tokens != [] {
      BytesOfUnits(width, before, tokens[..|tokens| - 1], size);
      assert |tokens| * size == (|tokens| - 1) * size + size;
    }
  }

  // The buffer is not full, unless it holds nothing but the header.
  ghost predicate PendingFits(stream: Stream, names: seq<string>, bufferSize: nat, width: Width) {
    || Bytes(width, Flat(stream.chunks), stream.pending) <= bufferSize
    || (stream.chunks == [] && stream.pending == Header(names))
  }

  lemma {:induction false} PendingAlwaysFits(names: seq<string>, entries: seq<Entry>, bufferSize: nat, width: Width)
    ensures PendingFits(StreamOf(names, entries, bufferSize, width), names, bufferSize, width)
  {
    hide EntryTokens, Header;
    if entries != [] {
      PendingAlwaysFits(names, entries[..|entries| - 1], bufferSize, width);
    }
  }

  /**
   A chunk is sent as soon as an entry fills the buffer: without its last entry it fits into the
   buffer, or it is the header. So it exceeds the buffer size, or the header, by at most one entry.
   */
  lemma {:induction false} ChunkSize(names: seq<string>, entries: seq<Entry>, bufferSize: nat, width: Width, k: nat)
    returns (rest: seq<Token>, n: nat)
    requires k < |StreamOf(names, entries, bufferSize, width).chunks|
    ensures
      var chunks := StreamOf(names, entries, bufferSize, width).chunks;
      var before := Flat(chunks[..k]);
      && n < |entries| && chunks[k] == rest + EntryTokens(names, entries[n])
      && (Bytes(width, before, rest) <= bufferSize || (k == 0 && rest == Header(names)))
      && bufferSize < Bytes(width, before, chunks[k])
      && Bytes(width, before, chunks[k]) == Bytes(width, before, rest) + Bytes(width, before + rest, EntryTokens(names, entries[n]))
    decreases |entries|
  {
    hide EntryTokens, Header, Bytes;
    var m := |entries| - 1;
    var earlier := StreamOf(names, entries[..m], bufferSize, width);
    var chunks := StreamOf(names, entries, bufferSize, width).chunks;
    if k < |earlier.chunks| {
      rest, n := ChunkSize(names, entries[..m], bufferSize, width, k);
      assert chunks[..k] == earlier.chunks[..k];
    } else {
      rest, n := earlier.pending, m;
      assert chunks[..k] == earlier.chunks;
      PendingAlwaysFits(names, entries[..m], bufferSize, width);
      BytesConcat(width, Flat(chunks[..k]), rest, EntryTokens(names, entries[n]));
    }
  }

  /**
   When every token takes one byte: each chunk that is sent while solutions come in has more tokens
   than the buffer may hold, and what stays pending has no more, unless it is the header.
   */
  lemma ChunksOfTokens(names: seq<string>, entries: seq<Entry>, bufferSize: nat, width: Width)
    requires forall b, t :: width(b, t) == 1
    ensures
      var stream := StreamOf(names, entries, bufferSize, width);
      && (forall k :: 0 <= k < |stream.chunks| ==> |stream.chunks[k]| > bufferSize)
      && (|stream.pending| <= bufferSize || (stream.chunks == [] && stream.pending == Header(names)))
  {
    var stream := StreamOf(names, entries, bufferSize, width);
    forall k | 0 <= k < |stream.chunks| ensures |stream.chunks[k]| > bufferSize {
      var rest, n := ChunkSize(names, entries, bufferSize, width, k);
      BytesOfUnits(width, Flat(stream.chunks[..k]), stream.chunks[k], 1);
    }
    PendingAlwaysFits(names, entries, bufferSize, width);
    BytesOfUnits(width, Flat(stream.chunks), stream.pending, 1);
  }

  // Named variables that differ have different names.
  lemma NamesAreDistinct(variables: seq<Variable>)
    requires NoDuplicates(variables) && forall v :: v in variables ==> !v.anonymous
    ensures NoDuplicates(NamesOf(variables))
  {
    var names := NamesOf(variables);
    forall i, j | 0 <= i < j < |names| ensures names[i] != names[j] {
      assert variables[i] in variables && variables[j] in variables;
    }
  }

  /** The counters that are reported are those of the document the client reads. */
  lemma CountersAreTotals(names: seq<string>, entries: seq<Entry>)
    requires NoDuplicates(names)
    ensures
      var solutions := SolutionsOf(names, Expanded(entries));
      |Expanded(entries)| == Total(entries) == |solutions| && TotalBindings(names, Expanded(entries)) == BindingsIn(solutions)
  {
    ExpandedSize(entries);
    BindingTotals(names, Expanded(entries));
  }

}
