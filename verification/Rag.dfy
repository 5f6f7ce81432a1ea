/** The chunk table and the BM25 index kept beside it (server/rag/src/store.rs). SQL statements are
    map updates; tokenization and the logarithm are parameters. */
module Rag {
  import opened Bm25

  datatype SourceId = SourceId(n: nat)
  datatype Chunk = Chunk(id: DocId, source: SourceId, title: string, content: string)
  datatype SearchResult = SearchResult(chunk: Chunk, score: real)

  type Table = map<DocId, Chunk>
  type Tokenizer = string -> seq<Term>

  function Text(c: Chunk): string { c.title + " " + c.content }

  /** The documents that a table stands for. */
  function TableDocs(tokenize: Tokenizer, table: Table): Docs {
    map id | id in table :: tokenize(Text(table[id]))
  }

  function OfSource(table: Table, source: SourceId): set<DocId> {
    set id | id in table && table[id].source == source
  }

  lemma DocsAfterUpsert(tokenize: Tokenizer, table: Table, c: Chunk)
    ensures TableDocs(tokenize, table[c.id := c]) == TableDocs(tokenize, table)[c.id := tokenize(Text(c))]
  {
  }

  lemma DocsAfterDelete(tokenize: Tokenizer, table: Table, ids: set<DocId>)
    ensures TableDocs(tokenize, table - ids) == TableDocs(tokenize, table) - ids
  {
  }

  lemma OneMoreRow(tokenize: Tokenizer, table: Table, todo: set<DocId>, id: DocId)
    requires id in table && id in todo
    ensures TableDocs(tokenize, table - (todo - {id}))
      == TableDocs(tokenize, table - todo)[id := tokenize(Text(table[id]))]
  {
  }

  predicate Leaves(rest: Docs, todo: set<DocId>, docs: Docs, ids: set<DocId>) { rest - todo == docs - ids }

  lemma OneMoreGone(rest: Docs, todo: set<DocId>, id: DocId, docs: Docs, ids: set<DocId>)
    requires id in todo && Leaves(rest, todo, docs, ids)
    ensures Leaves(rest - {id}, todo - {id}, docs, ids)
  {
    assert rest - {id} - (todo - {id}) == rest - todo;
  }

  lemma NoneLeft(rest: Docs, docs: Docs, ids: set<DocId>)
    requires Leaves(rest, {}, docs, ids)
    ensures rest == docs - ids
  {
    assert rest - {} == rest;
  }

  /** The id column is the primary key. */
  predicate Keyed(table: Table) { forall id :: id in table ==> table[id].id == id }

  function Hits(results: seq<SearchResult>): (hits: seq<Hit>)
    ensures |hits| == |results|
  {
    seq(|results|, i requires 0 <= i < |results| => Hit(results[i].chunk.id, results[i].score))
  }

  predicate FromTable(table: Table, results: seq<SearchResult>) {
    forall i :: 0 <= i < |results| ==> results[i].chunk.id in table && table[results[i].chunk.id] == results[i].chunk
  }

  class RagStore {
    const tokenize: Tokenizer
    var table: Table
    const index: BM25Index

    /** The index mirrors the table. */
    ghost predicate InStep()
      reads this, index
    {
      Keyed(table) && Mirror(index.View(), TableDocs(tokenize, table))
    }

    /** `open` on an existing database: the index is rebuilt row by row. */
    constructor (rows: Table, tokenize: Tokenizer, ln: real -> real)
      requires Keyed(rows)
      ensures InStep() && fresh(index)
      ensures table == rows && this.tokenize == tokenize && index.ln == ln
    {
      this.tokenize, table := tokenize, rows;
      index := new BM25Index(ln);
      new;
      Rebuild();
    }

    /** `rebuild_index`, row by row into an empty index. */
    method Rebuild()
      requires Keyed(table) && Mirror(index.View(), map[])
      modifies index
      ensures InStep()
    {
      var todo := table.Keys;
      assert TableDocs(tokenize, table - todo) == map[];
      while todo != {}
        invariant todo <= table.Keys
        invariant Mirror(index.View(), TableDocs(tokenize, table - todo))
      {
        var id :| id in todo;
        index.AddDocument(id, tokenize(Text(table[id])), TableDocs(tokenize, table - todo));
        OneMoreRow(tokenize, table, todo, id);
        todo := todo - {id};
      }
      assert table - todo == table;
    }

    method UpsertChunk(c: Chunk)
      requires InStep()
      modifies this, index
      ensures table == old(table)[c.id := c] && InStep()
    {
      ghost var docs := TableDocs(tokenize, table);
      DocsAfterUpsert(tokenize, table, c);
      table := table[c.id := c];
      index.AddDocument(c.id, tokenize(Text(c)), docs);
    }

    method RemoveSource(source: SourceId)
      requires InStep()
      modifies this, index
      ensures table == old(table) - OfSource(old(table), source) && InStep()
      ensures forall id :: id in table <==> id in old(table) && old(table)[id].source != source
      ensures forall id :: id in table ==> table[id] == old(table)[id]
    {
      var ids := OfSource(table, source);
      DocsAfterDelete(tokenize, table, ids);
      Unindex(ids, TableDocs(tokenize, table));
      table := table - OfSource(table, source);
    }

    method Unindex(ids: set<DocId>, ghost docs: Docs)
      requires Mirror(index.View(), docs)
      modifies index
      ensures Mirror(index.View(), docs - ids)
    {
      var todo := ids;
      ghost var rest := docs;
      while todo != {}
        invariant Mirror(index.View(), rest) && Leaves(rest, todo, docs, ids)
      {
        var id :| id in todo;
        index.RemoveDocument(id, rest);
        OneMoreGone(rest, todo, id, docs, ids);
        rest, todo := rest - {id}, todo - {id};
      }
      NoneLeft(rest, docs, ids);
    }

    /** The k best chunks by brute-force score over the whole table; no hit is lost in the join. */
    method Search(query: string, topK: nat) returns (results: seq<SearchResult>)
      requires InStep()
      ensures IsTopK(index.ln, TableDocs(tokenize, table), tokenize(query), topK, Hits(results))
      ensures FromTable(table, results)
    {
      ghost var docs := TableDocs(tokenize, table);
      var hits := index.Search(tokenize(query), topK, docs);
      results := [];
      for i := 0 to |hits|
        invariant Hits(results) == hits[..i] && FromTable(table, results)
      {
        HitIsDocument(ScoreOf(index.ln, docs, tokenize(query)), docs, tokenize(query), topK, hits, i);
        if hits[i].id in table {
          results := results + [SearchResult(table[hits[i].id], hits[i].score)];
        }
      }
      assert hits[..|hits|] == hits;
    }
  }

  lemma HitIsDocument(score: DocId -> real, docs: Docs, terms: seq<Term>, k: nat, hits: seq<Hit>, i: nat)
    requires Best(score, Matching(docs, terms), k, hits) && i < |hits|
    ensures hits[i].id in docs
  {
    assert hits[i].id in Matching(docs, terms);
  }

  // ---- what is found ----

  /** A space ends a token, whatever stands around it. */
  ghost predicate SplitsAtSpaces(tokenize: Tokenizer) {
    forall a: string, b: string :: tokenize(a + " " + b) == tokenize(a) + tokenize(b)
  }

  lemma MatchesIff(tokenize: Tokenizer, table: Table, query: seq<Term>, id: DocId)
    requires SplitsAtSpaces(tokenize) && id in table
    ensures id in Matching(TableDocs(tokenize, table), query)
      <==> exists i :: 0 <= i < |query| && OnChunk(tokenize, table[id], query[i])
  {
    var c := table[id];
    assert tokenize(c.title + " " + c.content) == tokenize(c.title) + tokenize(c.content);
    assert TableDocs(tokenize, table)[id] == tokenize(c.title) + tokenize(c.content);
    forall i | 0 <= i < |query| ensures query[i] in TableDocs(tokenize, table)[id] <==> OnChunk(tokenize, c, query[i]) {
    }
  }

  predicate OnChunk(tokenize: Tokenizer, c: Chunk, t: Term) { t in tokenize(c.title) || t in tokenize(c.content) }

  /** If there is room for them all, the chunks found are those that have a token of the query in their title
      or in their content. */
  lemma FindsIff(
    ln: real -> real, tokenize: Tokenizer, table: Table, query: seq<Term>, topK: nat, results: seq<SearchResult>,
    id: DocId)
    requires SplitsAtSpaces(tokenize) && id in table && topK >= |table|
    requires IsTopK(ln, TableDocs(tokenize, table), query, topK, Hits(results))
    ensures id in IdsOf(Hits(results)) <==> exists i :: 0 <= i < |query| && OnChunk(tokenize, table[id], query[i])
  {
    var docs, hits := TableDocs(tokenize, table), Hits(results);
    MatchesIff(tokenize, table, query, id);
    assert Matching(docs, query) <= table.Keys && |table.Keys| == |table|;
    SmallerSet(Matching(docs, query), table.Keys);
    IdsOfSize(hits);
    SameSize(IdsOf(hits), Matching(docs, query));
  }

  // ---- an upsert that races with a removal ----

  /** The table, the documents that the index stands for, and the ids that the removal has read. */
  datatype Race = Race(table: Table, docs: Docs, ids: set<DocId>)

  /** When the upsert's two sections run: after so many of the removal's three sections. */
  datatype Timing = Timing(row: nat, doc: nat)

  predicate Possible(at: Timing) { at.row <= at.doc <= 3 }

  /** The sections that are left, when r of the removal and w of the upsert have run. The upsert writes the
      row, then the document; the removal reads the ids, takes them from the index, then deletes the rows. */
  function Rest(tokenize: Tokenizer, source: SourceId, c: Chunk, at: Timing, r: nat, w: nat, s: Race): Race
    requires Possible(at) && r <= 3 && w <= 2
    decreases (3 - r) + (2 - w)
  {
    if w == 0 && r == at.row then Rest(tokenize, source, c, at, r, 1, s.(table := s.table[c.id := c]))
    else if w == 1 && r == at.doc then
      Rest(tokenize, source, c, at, r, 2, s.(docs := s.docs[c.id := tokenize(Text(c))]))
    else if r == 0 then Rest(tokenize, source, c, at, 1, w, s.(ids := OfSource(s.table, source)))
    else if r == 1 then Rest(tokenize, source, c, at, 2, w, s.(docs := s.docs - s.ids))
    else if r == 2 then Rest(tokenize, source, c, at, 3, w, s.(table := s.table - OfSource(s.table, source)))
    else s
  }

  function Raced(tokenize: Tokenizer, table: Table, source: SourceId, c: Chunk, at: Timing): Race
    requires Possible(at)
  {
    Rest(tokenize, source, c, at, 0, 0, Race(table, TableDocs(tokenize, table), {}))
  }

  // What the three parts are after r sections of the removal and w of the upsert.

  function TableThen(table: Table, source: SourceId, c: Chunk, at: Timing, r: nat, w: nat): Table {
    if r < 3 then (if w == 0 then table else table[c.id := c])
    else if at.row < 3 then table[c.id := c] - OfSource(table[c.id := c], source)
    else (var left := table - OfSource(table, source); if w == 0 then left else left[c.id := c])
  }

  function IdsThen(table: Table, source: SourceId, c: Chunk, at: Timing, r: nat): set<DocId> {
    if r == 0 then {} else OfSource(if at.row == 0 then table[c.id := c] else table, source)
  }

  function DocsThen(tokenize: Tokenizer, table: Table, source: SourceId, c: Chunk, at: Timing, r: nat, w: nat): Docs {
    var docs, ids, doc := TableDocs(tokenize, table), IdsThen(table, source, c, at, 1), tokenize(Text(c));
    if r < 2 then (if w == 2 then docs[c.id := doc] else docs)
    else if at.doc <= 1 then docs[c.id := doc] - ids
    else if w == 2 then (docs - ids)[c.id := doc] else docs - ids
  }

  function Then(tokenize: Tokenizer, table: Table, source: SourceId, c: Chunk, at: Timing, r: nat, w: nat): Race {
    Race(TableThen(table, source, c, at, r, w), DocsThen(tokenize, table, source, c, at, r, w),
         IdsThen(table, source, c, at, r))
  }

  /** The upsert has come just as far as its timing says. */
  predicate InTime(at: Timing, r: nat, w: nat) {
    && r <= 3 && w <= 2
    && (w == 0 ==> r <= at.row) && (w == 1 ==> at.row <= r <= at.doc) && (w == 2 ==> at.doc <= r)
  }

  lemma {:induction false} RestFromThen(
    tokenize: Tokenizer, table: Table, source: SourceId, c: Chunk, at: Timing, r: nat, w: nat)
    requires Possible(at) && InTime(at, r, w)
    ensures Rest(tokenize, source, c, at, r, w, Then(tokenize, table, source, c, at, r, w))
      == Then(tokenize, table, source, c, at, 3, 2)
    decreases (3 - r) + (2 - w)
  {
    if w == 0 && r == at.row {
      RestFromThen(tokenize, table, source, c, at, r, 1);
    } else if w == 1 && r == at.doc {
      RestFromThen(tokenize, table, source, c, at, r, 2);
    } else if r < 3 {
      RestFromThen(tokenize, table, source, c, at, r + 1, w);
    }
  }

  /** A row written after the deletion does no harm. Otherwise, if the document was written after the index
      was cleaned, the chunk must be of another source; and if the document was written before that but the
      row only after the ids were read, the chunk must not move into or out of the source. */
  predicate Harmless(table: Table, source: SourceId, c: Chunk, at: Timing) {
    if at.row == 3 then true
    else if at.doc >= 2 then c.source != source
    else at.row == 0 || (c.source == source <==> c.id in OfSource(table, source))
  }

  lemma OthersAgree(tokenize: Tokenizer, table: Table, source: SourceId, c: Chunk, at: Timing)
    requires Possible(at)
    ensures var s := Then(tokenize, table, source, c, at, 3, 2);
      && s.docs - {c.id} == TableDocs(tokenize, s.table) - {c.id}
      && (c.id in s.docs ==> s.docs[c.id] == tokenize(Text(c)))
      && (c.id in s.table ==> s.table[c.id] == c)
  {
    var rows := table[c.id := c];
    assert OfSource(rows, source) - {c.id} == OfSource(table, source) - {c.id};
    var s := Then(tokenize, table, source, c, at, 3, 2);
    assert s.table.Keys - {c.id} == table.Keys - OfSource(table, source) - {c.id};
    assert s.docs.Keys - {c.id} == table.Keys - OfSource(table, source) - {c.id};
  }

  lemma ChunkAgreesIff(tokenize: Tokenizer, table: Table, source: SourceId, c: Chunk, at: Timing)
    requires Possible(at)
    ensures var s := Then(tokenize, table, source, c, at, 3, 2);
      (c.id in s.docs <==> c.id in s.table) <==> Harmless(table, source, c, at)
  {
  }

  /** Over every interleaving of the sections: the index is left in step with the table exactly when the
      upsert was harmless. */
  lemma RacingUpsert(tokenize: Tokenizer, table: Table, source: SourceId, c: Chunk, at: Timing, ix: Tables)
    requires Possible(at) && Mirror(ix, Raced(tokenize, table, source, c, at).docs)
    ensures Mirror(ix, TableDocs(tokenize, Raced(tokenize, table, source, c, at).table))
      <==> Harmless(table, source, c, at)
  {
    RestFromThen(tokenize, table, source, c, at, 0, 0);
    OthersAgree(tokenize, table, source, c, at);
    ChunkAgreesIff(tokenize, table, source, c, at);
    var s := Then(tokenize, table, source, c, at, 3, 2);
    if Harmless(table, source, c, at) {
      SameButOne(s.docs, TableDocs(tokenize, s.table), c.id);
    } else {
      Mirrored(ix, s.docs, c.id);
      if Mirror(ix, TableDocs(tokenize, s.table)) {
        Mirrored(ix, TableDocs(tokenize, s.table), c.id);
      }
    }
  }

  lemma SameButOne(a: Docs, b: Docs, id: DocId)
    requires a - {id} == b - {id} && (id in a <==> id in b) && (id in a && id in b ==> a[id] == b[id])
    ensures a == b
  {
    assert a.Keys - {id} == (a - {id}).Keys && b.Keys - {id} == (b - {id}).Keys;
    forall x ensures x in a <==> x in b {
      assert x != id ==> (x in a <==> x in a - {id}) && (x in b <==> x in b - {id});
    }
    forall x | x in a ensures a[x] == b[x] {
      if x != id {
        assert (a - {id})[x] == a[x] && (b - {id})[x] == b[x];
      }
    }
  }

  // ---- two upserts of one chunk that race ----

  /** The index cannot tell the texts apart. */
  predicate SameTokens(a: seq<Term>, b: seq<Term>) { Freq(a) == Freq(b) && |a| == |b| }

  lemma SameTerms(a: seq<Term>, b: seq<Term>)
    requires SameTokens(a, b)
    ensures forall t :: t in a <==> t in b
  {
    forall t ensures t in a <==> t in b {
      FreqCounts(a, t);
      FreqCounts(b, t);
    }
  }

  lemma MirrorSameTokens(ix: Tables, docs: Docs, id: DocId, a: seq<Term>, b: seq<Term>)
    requires SameTokens(a, b) && Mirror(ix, docs[id := a])
    ensures Mirror(ix, docs[id := b])
  {
    SameTables(ix.freqs, docs, id, a, b);
    forall t ensures Lists(Posting(ix.inverted, t), docs[id := b], t) {
      assert Lists(Posting(ix.inverted, t), docs[id := a], t);
      SameHolding(docs, id, a, b, t);
    }
  }

  lemma SameTables(freqs: map<DocId, map<Term, nat>>, docs: Docs, id: DocId, a: seq<Term>, b: seq<Term>)
    requires SameTokens(a, b) && Counts(freqs, docs[id := a])
    ensures Counts(freqs, docs[id := b])
    ensures Lengths(docs[id := a]) == Lengths(docs[id := b]) && |docs[id := a]| == |docs[id := b]|
  {
    SameLengths(docs, id, a, b);
    var x, y := docs[id := a], docs[id := b];
    assert x.Keys == y.Keys;
    forall d | d in y ensures freqs[d] == Freq(y[d]) {
      assert freqs[d] == Freq(x[d]);
    }
  }

  lemma SameLengths(docs: Docs, id: DocId, a: seq<Term>, b: seq<Term>)
    requires |a| == |b|
    ensures Lengths(docs[id := a]) == Lengths(docs[id := b]) && |docs[id := a]| == |docs[id := b]|
  {
    var x, y := docs[id := a], docs[id := b];
    assert x.Keys == y.Keys && |x| == |x.Keys| && |y| == |y.Keys|;
  }

  lemma SameHolding(docs: Docs, id: DocId, a: seq<Term>, b: seq<Term>, t: Term)
    requires SameTokens(a, b)
    ensures Holding(docs[id := a], t) == Holding(docs[id := b], t)
  {
    SameTerms(a, b);
  }

  lemma MirrorTokens(ix: Tables, docs: Docs, id: DocId, a: seq<Term>)
    requires Mirror(ix, docs[id := a])
    ensures id in ix.freqs && ix.freqs[id] == Freq(a) && id in ix.lengths && ix.lengths[id] == |a|
  {
    assert docs[id := a][id] == a;
  }

  /** Row and document are each written last by one of the two. The index is left in step exactly when the
      same one was last in both, or the texts have the same tokens as often. */
  lemma RacingUpserts(tokenize: Tokenizer, table: Table, row: Chunk, doc: Chunk, ix: Tables)
    requires row.id == doc.id && Mirror(ix, TableDocs(tokenize, table)[doc.id := tokenize(Text(doc))])
    ensures Mirror(ix, TableDocs(tokenize, table[row.id := row]))
      <==> SameTokens(tokenize(Text(doc)), tokenize(Text(row)))
  {
    var docs, a, b := TableDocs(tokenize, table), tokenize(Text(doc)), tokenize(Text(row));
    DocsAfterUpsert(tokenize, table, row);
    if SameTokens(a, b) {
      MirrorSameTokens(ix, docs, doc.id, a, b);
    } else if Mirror(ix, docs[doc.id := b]) {
      MirrorTokens(ix, docs, doc.id, a);
      MirrorTokens(ix, docs, doc.id, b);
    }
  }
}
