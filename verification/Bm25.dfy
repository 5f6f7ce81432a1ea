/** The incremental BM25 index (server/rag/src/index.rs) against a scorer that scans every document.
    Texts enter as their tokens; numbers are exact and the logarithm is a parameter. */
module Bm25 {

  datatype DocId = DocId(n: nat)
  datatype Term = Term(n: nat)
  datatype Hit = Hit(id: DocId, score: real)

  type Docs = map<DocId, seq<Term>>

  const K1 := 1.5
  const B := 0.75

  // ---- what the index is about ----

  function Freq(terms: seq<Term>): map<Term, nat> {
    if terms == [] then map[]
    else
      var f, t := Freq(terms[..|terms| - 1]), terms[|terms| - 1];
      f[t := (if t in f then f[t] else 0) + 1]
  }

  lemma {:induction false} FreqCounts(terms: seq<Term>, t: Term)
    ensures t in Freq(terms) <==> t in terms
    ensures t in terms ==> Freq(terms)[t] == multiset(terms)[t]
  {
    if terms != [] {
      var rest, last := terms[..|terms| - 1], terms[|terms| - 1];
      assert terms == rest + [last];
      FreqCounts(rest, t);
      assert t !in rest ==> multiset(rest)[t] == 0;
    }
  }

  function Lengths(docs: Docs): map<DocId, nat> {
    map d | d in docs :: |docs[d]|
  }

  lemma FreqKeys(terms: seq<Term>)
    ensures forall t :: t in Freq(terms).Keys <==> t in terms
  {
    forall t ensures t in Freq(terms) <==> t in terms {
      FreqCounts(terms, t);
    }
  }

  ghost predicate Counts(freqs: map<DocId, map<Term, nat>>, docs: Docs) {
    freqs.Keys == docs.Keys && forall d :: d in docs ==> freqs[d] == Freq(docs[d])
  }

  ghost function Total(lengths: map<DocId, nat>): nat {
    if lengths == map[] then 0
    else
      var d :| d in lengths;
      lengths[d] + Total(lengths - {d})
  }

  lemma {:induction false} TotalSplits(lengths: map<DocId, nat>, d: DocId)
    requires d in lengths
    ensures Total(lengths) == lengths[d] + Total(lengths - {d})
    decreases |lengths|
  {
    var c :| c in lengths && Total(lengths) == lengths[c] + Total(lengths - {c});
    if c != d {
      TotalSplits(lengths - {c}, d);
      TotalSplits(lengths - {d}, c);
      assert lengths - {c} - {d} == lengths - {d} - {c};
    }
  }

  ghost function Average(docs: Docs): real
    requires docs != map[]
  {
    Mean(Lengths(docs), |docs|)
  }

  ghost function Mean(lengths: map<DocId, nat>, n: nat): real
    requires n > 0
  {
    Total(lengths) as real / n as real
  }

  /** Documents that contain the term. */
  function Holding(docs: Docs, t: Term): set<DocId> {
    set d | d in docs && t in docs[d]
  }

  function Idf(ln: real -> real, docs: nat, df: nat): real {
    ln((docs as real - df as real + 0.5) / (df as real + 0.5) + 1.0)
  }

  function Ratio(length: nat, average: real): (r: real)
    requires average > 0.0
    ensures r >= 0.0
  {
    length as real / average
  }

  function NormTf(tf: nat, length: nat, average: real): real
    requires average > 0.0
  {
    tf as real * (K1 + 1.0) / (tf as real + K1 * (1.0 - B + B * Ratio(length, average)))
  }

  /** What one query term adds to the score of one document. */
  ghost function Contribution(ln: real -> real, docs: Docs, t: Term, d: DocId): real {
    if d !in docs || t !in docs[d] then 0.0
    else
      SomeLength(docs, d);
      Idf(ln, |docs|, |Holding(docs, t)|) * NormTf(multiset(docs[d])[t], |docs[d]|, Average(docs))
  }

  lemma SomeLength(docs: Docs, d: DocId)
    requires d in docs && docs[d] != []
    ensures Average(docs) > 0.0
  {
    TotalSplits(Lengths(docs), d);
    PositiveRatio(Total(Lengths(docs)), |docs|);
  }

  lemma PositiveRatio(a: nat, b: nat)
    requires a > 0 && b > 0
    ensures a as real / b as real > 0.0
  {
  }

  /** The brute-force score: every term of the query, repeated ones repeatedly. */
  ghost function Score(ln: real -> real, docs: Docs, query: seq<Term>, d: DocId): real {
    if query == [] then 0.0
    else Score(ln, docs, query[..|query| - 1], d) + Contribution(ln, docs, query[|query| - 1], d)
  }

  function Matching(docs: Docs, query: seq<Term>): set<DocId> {
    set d | d in docs && exists i :: 0 <= i < |query| && query[i] in docs[d]
  }

  ghost predicate Ordered(hits: seq<Hit>) {
    && (forall i, j :: 0 <= i < j < |hits| ==> hits[i].id != hits[j].id)
    && (forall i, j :: 0 <= i < j < |hits| ==> hits[i].score >= hits[j].score)
  }

  /** The k best ids with their scores, best first. */
  ghost predicate Best(score: DocId -> real, ids: set<DocId>, k: nat, hits: seq<Hit>) {
    && Ordered(hits)
    && |hits| == (if k < |ids| then k else |ids|)
    && (forall i :: 0 <= i < |hits| ==> hits[i].id in ids && hits[i].score == score(hits[i].id))
    && (forall i, d :: 0 <= i < |hits| && d in ids && d !in IdsOf(hits) ==> score(d) <= hits[i].score)
  }

  ghost function ScoreOf(ln: real -> real, docs: Docs, query: seq<Term>): DocId -> real {
    d => Score(ln, docs, query, d)
  }

  /** The k best documents that match, with their brute-force scores. */
  ghost predicate IsTopK(ln: real -> real, docs: Docs, query: seq<Term>, k: nat, hits: seq<Hit>) {
    Best(ScoreOf(ln, docs, query), Matching(docs, query), k, hits)
  }

  function IdsOf(hits: seq<Hit>): set<DocId> { set i | 0 <= i < |hits| :: hits[i].id }

  // ---- postings ----

  function Ids(list: seq<DocId>): set<DocId> { set i | 0 <= i < |list| :: list[i] }

  function Posting(inverted: map<Term, seq<DocId>>, t: Term): seq<DocId> {
    if t in inverted then inverted[t] else []
  }

  /** Each document that contains the term, once. */
  ghost predicate Lists(list: seq<DocId>, docs: Docs, t: Term) {
    Ids(list) == Holding(docs, t) && |list| == |Holding(docs, t)|
  }

  /** The same ids as often, in any order. */
  predicate SameEntries(list: seq<DocId>, list': seq<DocId>) { Ids(list) == Ids(list') && |list| == |list'| }

  ghost predicate AllListed(inverted: map<Term, seq<DocId>>, docs: Docs) {
    forall t :: Lists(Posting(inverted, t), docs, t)
  }

  function Without(list: seq<DocId>, d: DocId): seq<DocId> {
    if list == [] then []
    else Without(list[..|list| - 1], d) + if list[|list| - 1] == d then [] else [list[|list| - 1]]
  }

  /** The posting list of t after d left the lists of these terms. */
  function Unlisted(inverted: map<Term, seq<DocId>>, t: Term, d: DocId, terms: set<Term>): seq<DocId> {
    if t in terms then Without(Posting(inverted, t), d) else Posting(inverted, t)
  }

  lemma IdsAppend(list: seq<DocId>, d: DocId)
    ensures Ids(list + [d]) == Ids(list) + {d}
  {
    var longer := list + [d];
    forall x | x in Ids(list) + {d} ensures x in Ids(longer) {
      if x != d {
        var i :| 0 <= i < |list| && list[i] == x;
        assert longer[i] == x;
      } else {
        assert longer[|list|] == x;
      }
    }
  }

  lemma {:induction false} IdsSize(list: seq<DocId>)
    ensures |Ids(list)| <= |list|
  {
    if list != [] {
      IdsSize(list[..|list| - 1]);
      assert list == list[..|list| - 1] + [list[|list| - 1]];
      IdsAppend(list[..|list| - 1], list[|list| - 1]);
    }
  }

  /** On a list without duplicates, `retain` removes just the one document. */
  lemma {:induction false} WithoutRemoves(list: seq<DocId>, d: DocId)
    requires |Ids(list)| == |list|
    ensures Ids(Without(list, d)) == Ids(list) - {d}
    ensures |Without(list, d)| == |Ids(list) - {d}|
  {
    if list != [] {
      var rest, last := list[..|list| - 1], list[|list| - 1];
      assert list == rest + [last];
      IdsAppend(rest, last);
      IdsSize(rest);
      WithoutRemoves(rest, d);
      IdsAppend(Without(rest, d), last);
      assert last !in Ids(rest);
      SplitOff(Ids(rest), last, d);
      assert Without(list, d) == if last == d then Without(rest, d) else Without(rest, d) + [last];
    }
  }

  lemma SplitOff<T>(s: set<T>, last: T, d: T)
    requires last !in s
    ensures s + {last} - {d} == if last == d then s - {d} else (s - {d}) + {last}
    ensures |s + {last} - {d}| == if last == d then |s - {d}| else |s - {d}| + 1
  {
    assert s + {last} - {d} == if last == d then s - {d} else (s - {d}) + {last};
  }

  function LeavesList(inverted: map<Term, seq<DocId>>, docs: Docs, d: DocId, t: Term): seq<DocId>
    requires d in docs
  {
    if t in docs[d] then Without(Posting(inverted, t), d) else Posting(inverted, t)
  }

  lemma ListsAfterRemoval(before: map<Term, seq<DocId>>, after: map<Term, seq<DocId>>, docs: Docs, d: DocId)
    requires AllListed(before, docs) && d in docs
    requires forall t :: Posting(after, t) == LeavesList(before, docs, d, t)
    ensures AllListed(after, docs - {d})
  {
    forall t ensures Lists(Posting(after, t), docs - {d}, t) {
      ListAfterRemoval(Posting(before, t), docs, t, d);
    }
  }

  lemma ListAfterRemoval(list: seq<DocId>, docs: Docs, t: Term, d: DocId)
    requires Lists(list, docs, t) && d in docs
    ensures Lists(if t in docs[d] then Without(list, d) else list, docs - {d}, t)
  {
    HoldingAfterRemoval(docs, t, d);
    WithoutRemoves(list, d);
  }

  lemma HoldingAfterRemoval(docs: Docs, t: Term, d: DocId)
    requires d in docs
    ensures Holding(docs - {d}, t) == if t in docs[d] then Holding(docs, t) - {d} else Holding(docs, t)
  {
  }

  lemma ListsAfterAddition(
    before: map<Term, seq<DocId>>, after: map<Term, seq<DocId>>, docs: Docs, d: DocId, terms: seq<Term>)
    requires AllListed(before, docs) && d !in docs
    requires forall t :: Posting(after, t) == Posting(before, t) + if t in terms then [d] else []
    ensures AllListed(after, docs[d := terms])
  {
    forall t ensures Lists(Posting(after, t), docs[d := terms], t) {
      ListAfterAddition(Posting(before, t), docs, t, d, terms);
      assert Posting(before, t) + [] == Posting(before, t);
    }
  }

  lemma ListAfterAddition(list: seq<DocId>, docs: Docs, t: Term, d: DocId, terms: seq<Term>)
    requires Lists(list, docs, t) && d !in docs
    ensures Lists(if t in terms then list + [d] else list, docs[d := terms], t)
  {
    IdsAppend(list, d);
    HoldingAfterAddition(docs, t, d, terms);
  }

  lemma HoldingAfterAddition(docs: Docs, t: Term, d: DocId, terms: seq<Term>)
    requires d !in docs
    ensures Holding(docs[d := terms], t) == if t in terms then Holding(docs, t) + {d} else Holding(docs, t)
  {
  }

  lemma TablesAfterRemoval(freqs: map<DocId, map<Term, nat>>, docs: Docs, d: DocId)
    requires Counts(freqs, docs)
    ensures Counts(freqs - {d}, docs - {d})
    ensures Lengths(docs - {d}) == Lengths(docs) - {d}
    ensures |docs - {d}| == if d in docs then |docs| - 1 else |docs|
  {
    assert (docs - {d}).Keys == docs.Keys - {d};
    assert d !in docs ==> docs - {d} == docs;
  }

  lemma CountsAfterAddition(freqs: map<DocId, map<Term, nat>>, docs: Docs, d: DocId, terms: seq<Term>)
    requires Counts(freqs, docs)
    ensures Counts(freqs[d := Freq(terms)], docs[d := terms])
  {
    var freqs', docs' := freqs[d := Freq(terms)], docs[d := terms];
    forall x | x in docs' ensures freqs'[x] == Freq(docs'[x]) {
    }
  }

  lemma LengthsAfterAddition(docs: Docs, d: DocId, terms: seq<Term>)
    requires d !in docs
    ensures Lengths(docs[d := terms]) == Lengths(docs)[d := |terms|]
    ensures |docs[d := terms]| == |docs| + 1
  {
    assert docs[d := terms].Keys == docs.Keys + {d};
  }

  method TotalLength(lengths: map<DocId, nat>) returns (total: nat)
    ensures total == Total(lengths)
  {
    var rest := lengths;
    total := 0;
    while rest != map[]
      invariant total + Total(rest) == Total(lengths)
      decreases |rest|
    {
      var d :| d in rest;
      TotalSplits(rest, d);
      total, rest := total + rest[d], rest - {d};
    }
  }

  method CountTerms(terms: seq<Term>) returns (freq: map<Term, nat>)
    ensures freq == Freq(terms)
  {
    freq := map[];
    for i := 0 to |terms|
      invariant freq == Freq(terms[..i])
    {
      var t := terms[i];
      assert terms[..i + 1][..i] == terms[..i];
      freq := freq[t := (if t in freq then freq[t] else 0) + 1];
    }
    assert terms[..|terms|] == terms;
  }

  /** Saturating subtraction. */
  function OneLess(n: nat): nat { if n == 0 then 0 else n - 1 }

  lemma Replaced(docs: Docs, id: DocId, terms: seq<Term>)
    ensures (docs - {id})[id := terms] == docs[id := terms]
  {
  }

  datatype Tables = Tables(
    freqs: map<DocId, map<Term, nat>>,
    inverted: map<Term, seq<DocId>>,
    lengths: map<DocId, nat>,
    average: real,
    docs: nat)

  /** The tables are those of the documents; the average is only meaningful when there are some. */
  ghost predicate Mirror(ix: Tables, docs: Docs) {
    && Counts(ix.freqs, docs)
    && ix.lengths == Lengths(docs)
    && ix.docs == |docs|
    && (ix.docs > 0 ==> ix.average == Mean(ix.lengths, ix.docs))
    && AllListed(ix.inverted, docs)
  }

  lemma MirrorAfterRemoval(ix: Tables, ix': Tables, docs: Docs, id: DocId)
    requires Mirror(ix, docs) && id in docs
    requires ix'.freqs == ix.freqs - {id} && ix'.lengths == ix.lengths - {id} && ix'.docs == ix.docs - 1
    requires ix'.docs > 0 ==> ix'.average == Mean(ix'.lengths, ix'.docs)
    requires forall t :: Posting(ix'.inverted, t) == LeavesList(ix.inverted, docs, id, t)
    ensures Mirror(ix', docs - {id})
  {
    TablesAfterRemoval(ix.freqs, docs, id);
    ListsAfterRemoval(ix.inverted, ix'.inverted, docs, id);
  }

  lemma MirrorAfterAddition(ix: Tables, ix': Tables, docs: Docs, id: DocId, terms: seq<Term>)
    requires Mirror(ix, docs) && id !in docs
    requires ix'.freqs == ix.freqs[id := Freq(terms)] && ix'.lengths == ix.lengths[id := |terms|]
    requires ix'.docs == ix.docs + 1
    requires ix'.average == Mean(ix'.lengths, ix'.docs)
    requires forall t :: Posting(ix'.inverted, t) == Posting(ix.inverted, t) + if t in terms then [id] else []
    ensures Mirror(ix', docs[id := terms])
  {
    CountsAfterAddition(ix.freqs, docs, id, terms);
    LengthsAfterAddition(docs, id, terms);
    ListsAfterAddition(ix.inverted, ix'.inverted, docs, id, terms);
  }

  lemma Mirrored(ix: Tables, docs: Docs, id: DocId)
    requires Mirror(ix, docs)
    ensures id in ix.freqs <==> id in docs
    ensures id in ix.lengths <==> id in docs
    ensures id in docs ==> ix.docs > 0 && ix.freqs[id] == Freq(docs[id])
    ensures id !in docs ==> docs - {id} == docs
  {
  }

  /** The documents of ids, each with its score; unscored ones score zero. */
  ghost predicate Scored(scores: map<DocId, real>, ids: set<DocId>, score: DocId -> real) {
    scores.Keys == ids && forall d :: if d in scores then scores[d] == score(d) else score(d) == 0.0
  }

  ghost function Gained(base: DocId -> real, ln: real -> real, docs: Docs, t: Term, ids: set<DocId>): DocId -> real {
    d => base(d) + if d in ids then Contribution(ln, docs, t, d) else 0.0
  }

  lemma NothingGained(
    scores: map<DocId, real>, base: DocId -> real, ln: real -> real, docs: Docs, t: Term, list: seq<DocId>)
    requires Scored(scores, scores.Keys, base)
    ensures Scored(scores, scores.Keys + Ids(list[..0]), Gained(base, ln, docs, t, Ids(list[..0])))
  {
    assert Ids(list[..0]) == {};
    assert scores.Keys + {} == scores.Keys;
  }

  lemma ScoredStep(
    scores: map<DocId, real>, keys: set<DocId>, base: DocId -> real, ln: real -> real, docs: Docs, t: Term,
    ids: set<DocId>, d: DocId)
    requires Scored(scores, keys + ids, Gained(base, ln, docs, t, ids)) && d !in ids
    ensures Scored(
      scores[d := (if d in scores then scores[d] else 0.0) + Contribution(ln, docs, t, d)],
      keys + (ids + {d}), Gained(base, ln, docs, t, ids + {d}))
  {
    var after := scores[d := (if d in scores then scores[d] else 0.0) + Contribution(ln, docs, t, d)];
    assert after.Keys == keys + (ids + {d});
    var before, score := Gained(base, ln, docs, t, ids), Gained(base, ln, docs, t, ids + {d});
    forall x ensures if x in after then after[x] == score(x) else score(x) == 0.0 {
      assert if x in scores then scores[x] == before(x) else before(x) == 0.0;
    }
  }

  /** Documents outside the posting list gain nothing. */
  lemma AllGained(base: DocId -> real, ln: real -> real, docs: Docs, t: Term, list: seq<DocId>)
    requires Lists(list, docs, t)
    ensures forall d :: Gained(base, ln, docs, t, Ids(list[..|list|]))(d) == Gained(base, ln, docs, t, docs.Keys)(d)
  {
    assert list[..|list|] == list;
  }

  lemma SameScored(scores: map<DocId, real>, ids: set<DocId>, score: DocId -> real, score': DocId -> real)
    requires Scored(scores, ids, score) && forall d :: score(d) == score'(d)
    ensures Scored(scores, ids, score')
  {
  }

  lemma FreshHolder(list: seq<DocId>, docs: Docs, t: Term, j: nat)
    requires Lists(list, docs, t) && j < |list|
    ensures list[j] in docs && t in docs[list[j]]
    ensures list[j] !in Ids(list[..j]) && Ids(list[..j + 1]) == Ids(list[..j]) + {list[j]}
  {
    assert list[j] in Ids(list);
    assert list[..j + 1] == list[..j] + [list[j]];
    IdsAppend(list[..j], list[j]);
    NoRepeat(list, j);
  }

  lemma NoRepeat(list: seq<DocId>, j: nat)
    requires |Ids(list)| == |list| && j < |list|
    ensures list[j] !in Ids(list[..j])
  {
    if list[j] in Ids(list[..j]) {
      var others := list[..j] + list[j + 1..];
      IdsSize(others);
      forall d | d in Ids(list) ensures d in Ids(others) {
        var i :| 0 <= i < |list| && list[i] == d;
        if i < j {
          assert others[i] == d;
        } else if i > j {
          assert others[i - 1] == d;
        } else {
          var i' :| 0 <= i' < j && list[..j][i'] == d;
          assert others[i'] == d;
        }
      }
      assert Ids(list) <= Ids(others);
      SmallerSet(Ids(list), Ids(others));
    }
  }

  lemma SmallerSet<T>(s: set<T>, t: set<T>)
    requires s <= t
    ensures |s| <= |t|
  {
    assert t == s + (t - s);
  }

  lemma NothingScored(ln: real -> real, docs: Docs)
    ensures Scored(map[], Matching(docs, []), ScoreOf(ln, docs, []))
  {
    assert Matching(docs, []) == {};
  }

  lemma TermScored(scores: map<DocId, real>, ln: real -> real, docs: Docs, query: seq<Term>, i: nat)
    requires i < |query|
    requires Scored(scores, Matching(docs, query[..i]) + Holding(docs, query[i]),
                    Gained(ScoreOf(ln, docs, query[..i]), ln, docs, query[i], docs.Keys))
    ensures Scored(scores, Matching(docs, query[..i + 1]), ScoreOf(ln, docs, query[..i + 1]))
  {
    var longer := query[..i + 1];
    assert longer[..i] == query[..i] && longer[i] == query[i];
    assert Matching(docs, longer) == Matching(docs, query[..i]) + Holding(docs, query[i]);
    forall d ensures ScoreOf(ln, docs, longer)(d)
      == Gained(ScoreOf(ln, docs, query[..i]), ln, docs, query[i], docs.Keys)(d) {
    }
  }

  // ---- ranking ----

  function Insert(hits: seq<Hit>, h: Hit): seq<Hit> {
    if hits == [] || h.score > hits[0].score then [h] + hits else [hits[0]] + Insert(hits[1..], h)
  }

  lemma {:induction false} InsertOrders(hits: seq<Hit>, h: Hit)
    requires Ordered(hits) && h.id !in IdsOf(hits)
    ensures Ordered(Insert(hits, h)) && |Insert(hits, h)| == |hits| + 1
    ensures forall i :: 0 <= i <= |hits| ==> Insert(hits, h)[i] == h || Insert(hits, h)[i] in hits
  {
    if hits != [] && h.score <= hits[0].score {
      var tail := Insert(hits[1..], h);
      InsertOrders(hits[1..], h);
      forall i | 0 <= i < |tail| ensures tail[i] == h || tail[i] in hits[1..] {
      }
      BehindFirst(hits, h, tail);
      PrependOrders(hits[0], tail);
    } else {
      PrependOrders(h, hits);
    }
  }

  lemma BehindFirst(hits: seq<Hit>, h: Hit, tail: seq<Hit>)
    requires Ordered(hits) && hits != [] && h.id !in IdsOf(hits) && h.score <= hits[0].score
    requires forall i :: 0 <= i < |tail| ==> tail[i] == h || tail[i] in hits[1..]
    ensures forall i :: 0 <= i < |tail| ==> tail[i].id != hits[0].id && tail[i].score <= hits[0].score
  {
    assert hits[0].id in IdsOf(hits);
    forall i | 0 <= i < |tail| ensures tail[i].id != hits[0].id && tail[i].score <= hits[0].score {
      if tail[i] != h {
        var j :| 0 <= j < |hits[1..]| && hits[1..][j] == tail[i];
        assert hits[j + 1] == tail[i];
      }
    }
  }

  lemma PrependOrders(x: Hit, tail: seq<Hit>)
    requires Ordered(tail) && (tail != [] ==> tail[0].score <= x.score)
    requires forall i :: 0 <= i < |tail| ==> tail[i].id != x.id && tail[i].score <= x.score
    ensures Ordered([x] + tail)
  {
  }

  /** All scored documents, best first. */
  ghost predicate Ranks(hits: seq<Hit>, scores: map<DocId, real>) {
    && Ordered(hits)
    && |hits| == |scores|
    && (forall i :: 0 <= i < |hits| ==> hits[i].id in scores && hits[i].score == scores[hits[i].id])
  }

  lemma RanksMore(hits: seq<Hit>, scores: map<DocId, real>, todo: set<DocId>, d: DocId)
    requires d in todo && d in scores && Ranks(hits, scores - todo)
    ensures Ranks(Insert(hits, Hit(d, scores[d])), scores - (todo - {d}))
  {
    InsertOrders(hits, Hit(d, scores[d]));
    assert (scores - (todo - {d})).Keys == (scores - todo).Keys + {d};
  }

  method Rank(scores: map<DocId, real>) returns (hits: seq<Hit>)
    ensures Ranks(hits, scores)
  {
    var todo := scores.Keys;
    hits := [];
    while todo != {}
      invariant todo <= scores.Keys && Ranks(hits, scores - todo)
    {
      var d :| d in todo;
      RanksMore(hits, scores, todo, d);
      hits, todo := Insert(hits, Hit(d, scores[d])), todo - {d};
    }
    assert scores - {} == scores;
  }

  lemma {:induction false} IdsOfSize(hits: seq<Hit>)
    requires Ordered(hits)
    ensures |IdsOf(hits)| == |hits|
  {
    if hits != [] {
      IdsOfSize(hits[..|hits| - 1]);
      assert IdsOf(hits) == IdsOf(hits[..|hits| - 1]) + {hits[|hits| - 1].id};
    }
  }

  /** Truncating a full ranking gives the best. */
  lemma BestOf(scores: map<DocId, real>, ids: set<DocId>, score: DocId -> real, hits: seq<Hit>, k: nat)
    requires Scored(scores, ids, score) && Ranks(hits, scores)
    ensures Best(score, ids, k, if k < |hits| then hits[..k] else hits)
  {
    var best := if k < |hits| then hits[..k] else hits;
    assert |scores| == |ids|;
    forall d | d in ids && d !in IdsOf(best)
      ensures forall i :: 0 <= i < |best| ==> score(d) <= best[i].score
    {
      Listed(hits, scores, d);
      var j :| 0 <= j < |hits| && hits[j].id == d;
      forall i | 0 <= i < |best| ensures best[i].id != d {
        assert best[i].id in IdsOf(best);
      }
      assert j >= |best|;
    }
  }

  lemma Listed(hits: seq<Hit>, scores: map<DocId, real>, d: DocId)
    requires Ranks(hits, scores) && d in scores
    ensures exists j :: 0 <= j < |hits| && hits[j].id == d
  {
    IdsOfSize(hits);
    SmallerSet(IdsOf(hits), scores.Keys);
    assert IdsOf(hits) == scores.Keys by {
      SameSize(IdsOf(hits), scores.Keys);
    }
  }

  lemma SameSize<T>(s: set<T>, t: set<T>)
    requires s <= t && |s| == |t|
    ensures s == t
  {
    assert t == s + (t - s);
  }

  // ---- what an answer means ----

  lemma DfBounded(docs: Docs, t: Term)
    ensures |Holding(docs, t)| <= |docs|
  {
    SmallerSet(Holding(docs, t), docs.Keys);
  }

  lemma PositiveQuotient(a: real, b: real)
    requires a > 0.0 && b > 0.0
    ensures a / b > 0.0
  {
  }

  lemma ContributionPositive(ln: real -> real, docs: Docs, t: Term, d: DocId)
    requires forall x :: x > 1.0 ==> ln(x) > 0.0
    ensures Contribution(ln, docs, t, d) >= 0.0
    ensures Contribution(ln, docs, t, d) > 0.0 <==> d in docs && t in docs[d]
  {
    if d in docs && t in docs[d] {
      var n, df, tf := |docs| as real, |Holding(docs, t)| as real, multiset(docs[d])[t] as real;
      DfBounded(docs, t);
      PositiveQuotient(n - df + 0.5, df + 0.5);
      assert Idf(ln, |docs|, |Holding(docs, t)|) > 0.0;
      SomeLength(docs, d);
      var share := Ratio(|docs[d]|, Average(docs));
      PositiveQuotient(tf * (K1 + 1.0), tf + K1 * (1.0 - B + B * share));
    }
  }

  /** The answer ranks exactly the documents whose brute-force score is positive. */
  lemma {:induction false} MatchingIsPositive(ln: real -> real, docs: Docs, query: seq<Term>, d: DocId)
    requires forall x :: x > 1.0 ==> ln(x) > 0.0
    ensures Score(ln, docs, query, d) >= 0.0
    ensures d in Matching(docs, query) <==> Score(ln, docs, query, d) > 0.0
  {
    if query != [] {
      var rest, t := query[..|query| - 1], query[|query| - 1];
      MatchingIsPositive(ln, docs, rest, d);
      ContributionPositive(ln, docs, t, d);
      assert Matching(docs, query) == Matching(docs, rest) + Holding(docs, t);
    }
  }

  /** Two indexes of the same documents, however they came about, hold the same tables up to the order
      of a posting list and the average of no documents. */
  lemma MirrorsAgree(ix: Tables, ix': Tables, docs: Docs)
    requires Mirror(ix, docs) && Mirror(ix', docs)
    ensures ix.freqs == ix'.freqs && ix.lengths == ix'.lengths && ix.docs == ix'.docs
    ensures ix.docs > 0 ==> ix.average == ix'.average
    ensures forall t :: SameEntries(Posting(ix.inverted, t), Posting(ix'.inverted, t))
  {
    assert forall t :: Lists(Posting(ix.inverted, t), docs, t) && Lists(Posting(ix'.inverted, t), docs, t);
  }

  /** Two answers to one query have the same scores in the same places; only ties may be ordered differently. */
  lemma AnswersAgree(ln: real -> real, docs: Docs, query: seq<Term>, k: nat, hits: seq<Hit>, hits': seq<Hit>)
    requires IsTopK(ln, docs, query, k, hits) && IsTopK(ln, docs, query, k, hits')
    ensures |hits| == |hits'| && forall i :: 0 <= i < |hits| ==> hits[i].score == hits'[i].score
  {
    forall i | 0 <= i < |hits| ensures hits[i].score == hits'[i].score {
      NotBelow(ScoreOf(ln, docs, query), Matching(docs, query), k, hits, hits', i);
      NotBelow(ScoreOf(ln, docs, query), Matching(docs, query), k, hits', hits, i);
    }
  }

  lemma Missing(hits: seq<Hit>, hits': seq<Hit>, i: nat) returns (a: nat)
    requires Ordered(hits) && Ordered(hits') && i < |hits| == |hits'|
    ensures a <= i && forall b :: 0 <= b < i ==> hits'[b].id != hits[a].id
  {
    var ahead, fewer := hits[..i + 1], hits'[..i];
    IdsOfSize(ahead);
    IdsOfSize(fewer);
    var d :| d in IdsOf(ahead) && d !in IdsOf(fewer) by {
      if IdsOf(ahead) <= IdsOf(fewer) {
        SmallerSet(IdsOf(ahead), IdsOf(fewer));
      }
    }
    a :| 0 <= a <= i && ahead[a].id == d;
    forall b | 0 <= b < i ensures hits'[b].id != hits[a].id {
      assert fewer[b].id in IdsOf(fewer);
    }
  }

  lemma NotBelow(score: DocId -> real, ids: set<DocId>, k: nat, hits: seq<Hit>, hits': seq<Hit>, i: nat)
    requires Best(score, ids, k, hits) && Best(score, ids, k, hits') && i < |hits|
    ensures hits'[i].score >= hits[i].score
  {
    var a := Missing(hits, hits', i);
    var d := hits[a].id;
    if d in IdsOf(hits') {
      var b :| 0 <= b < |hits'| && hits'[b].id == d;
      assert b >= i;
    }
  }

  class BM25Index {
    const ln: real -> real
    var docTermFreq: map<DocId, map<Term, nat>>
    var inverted: map<Term, seq<DocId>>
    var docLengths: map<DocId, nat>
    var avgDocLen: real
    var numDocs: nat

    ghost function View(): Tables
      reads this
    {
      Tables(docTermFreq, inverted, docLengths, avgDocLen, numDocs)
    }

    constructor (ln: real -> real)
      ensures Mirror(View(), map[]) && this.ln == ln
    {
      this.ln := ln;
      docTermFreq, inverted, docLengths, avgDocLen, numDocs := map[], map[], map[], 0.0, 0;
      new;
      assert forall t :: Posting(inverted, t) == [];
    }

    /** `remove_document`. */
    method RemoveDocument(id: DocId, ghost docs: Docs)
      requires Mirror(View(), docs)
      modifies this
      ensures Mirror(View(), docs - {id})
    {
      ghost var before := View();
      Mirrored(before, docs, id);
      if id in docTermFreq {
        var freq := docTermFreq[id];
        FreqKeys(docs[id]);
        docTermFreq := docTermFreq - {id};
        Unlist(id, freq.Keys);
      }
      if id in docLengths {
        docLengths := docLengths - {id};
        numDocs := OneLess(numDocs);
        if numDocs > 0 {
          SetAverage();
        }
        MirrorAfterRemoval(before, View(), docs, id);
      }
    }

    method SetAverage()
      requires numDocs > 0
      modifies this`avgDocLen
      ensures avgDocLen == Mean(docLengths, numDocs)
    {
      var total := TotalLength(docLengths);
      avgDocLen := total as real / numDocs as real;
    }

    method Unlist(id: DocId, terms: set<Term>)
      modifies this`inverted
      ensures forall t :: Posting(inverted, t) == Unlisted(old(inverted), t, id, terms)
    {
      var todo := terms;
      while todo != {}
        invariant todo <= terms
        invariant forall t :: Posting(inverted, t) == Unlisted(old(inverted), t, id, terms - todo)
      {
        var t :| t in todo;
        ghost var was := inverted;
        if t in inverted {
          inverted := inverted[t := Without(inverted[t], id)];
        }
        assert Posting(was, t) == Posting(old(inverted), t) && Posting(inverted, t) == Without(Posting(was, t), id);
        assert forall x :: x != t ==> Posting(inverted, x) == Posting(was, x);
        todo := todo - {t};
      }
    }

    method Enlist(id: DocId, terms: set<Term>)
      modifies this`inverted
      ensures forall t :: Posting(inverted, t) == Posting(old(inverted), t) + if t in terms then [id] else []
    {
      var todo := terms;
      while todo != {}
        invariant todo <= terms
        invariant forall t :: Posting(inverted, t) == Posting(old(inverted), t) + if t in terms - todo then [id] else []
      {
        var t :| t in todo;
        inverted := inverted[t := Posting(inverted, t) + [id]];
        todo := todo - {t};
      }
    }

    /** `add_document`: a document that is already there is replaced. */
    method AddDocument(id: DocId, terms: seq<Term>, ghost docs: Docs)
      requires Mirror(View(), docs)
      modifies this
      ensures Mirror(View(), docs[id := terms])
    {
      RemoveDocument(id, docs);
      ghost var others, before := docs - {id}, View();
      var freq := CountTerms(terms);
      FreqKeys(terms);
      Enlist(id, freq.Keys);
      docTermFreq := docTermFreq[id := freq];
      docLengths := docLengths[id := |terms|];
      numDocs := numDocs + 1;
      SetAverage();
      Mirrored(before, others, id);
      MirrorAfterAddition(before, View(), others, id, terms);
      Replaced(docs, id, terms);
    }

    /** What the loop over postings adds for one of them. */
    method Gain(t: Term, d: DocId, idf: real, ghost docs: Docs) returns (gain: real)
      requires Mirror(View(), docs) && d in docs && t in docs[d]
      requires idf == Idf(ln, |docs|, |Holding(docs, t)|)
      ensures gain == Contribution(ln, docs, t, d)
    {
      Mirrored(View(), docs, d);
      FreqCounts(docs[d], t);
      SomeLength(docs, d);
      var tf := if d in docTermFreq && t in docTermFreq[d] then docTermFreq[d][t] else 0;
      var length := if d in docLengths then docLengths[d] else 1;
      gain := idf * NormTf(tf, length, avgDocLen);
    }

    /** One query term: every document in its posting list gains that term's contribution. */
    method ScoreTerm(
      t: Term, scores: map<DocId, real>, ghost docs: Docs, ghost base: DocId -> real)
      returns (after: map<DocId, real>)
      requires Mirror(View(), docs) && Scored(scores, scores.Keys, base)
      ensures Scored(after, scores.Keys + Holding(docs, t), Gained(base, ln, docs, t, docs.Keys))
    {
      after := scores;
      var list := Posting(inverted, t);
      assert Lists(list, docs, t);
      var idf := Idf(ln, numDocs, |list|);
      NothingGained(scores, base, ln, docs, t, list);
      for j := 0 to |list|
        invariant Scored(after, scores.Keys + Ids(list[..j]), Gained(base, ln, docs, t, Ids(list[..j])))
      {
        FreshHolder(list, docs, t, j);
        var gain := Gain(t, list[j], idf, docs);
        ScoredStep(after, scores.Keys, base, ln, docs, t, Ids(list[..j]), list[j]);
        after := after[list[j] := (if list[j] in after then after[list[j]] else 0.0) + gain];
      }
      AllGained(base, ln, docs, t, list);
      assert list[..|list|] == list;
      SameScored(after, scores.Keys + Ids(list),
                 Gained(base, ln, docs, t, Ids(list)), Gained(base, ln, docs, t, docs.Keys));
    }

    /** `search`: an empty index answers nothing; otherwise accumulate, sort, truncate. */
    method Search(query: seq<Term>, topK: nat, ghost docs: Docs) returns (hits: seq<Hit>)
      requires Mirror(View(), docs)
      ensures IsTopK(ln, docs, query, topK, hits)
    {
      if numDocs == 0 {
        assert docs.Keys == {};
        return [];
      }
      var scores: map<DocId, real> := map[];
      NothingScored(ln, docs);
      for i := 0 to |query|
        invariant Scored(scores, Matching(docs, query[..i]), ScoreOf(ln, docs, query[..i]))
      {
        scores := ScoreTerm(query[i], scores, docs, ScoreOf(ln, docs, query[..i]));
        TermScored(scores, ln, docs, query, i);
      }
      assert query[..|query|] == query;
      hits := Rank(scores);
      BestOf(scores, Matching(docs, query), ScoreOf(ln, docs, query), hits, topK);
      hits := if topK < |hits| then hits[..topK] else hits;
    }
  }
}
