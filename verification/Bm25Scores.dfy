/** What a BM25 score means (server/rag/src/index.rs): the value of one term in closed form, and how
    rarity, frequency and length move it, up to the order of the answers. */
module Bm25Scores {
  import opened Bm25

  // ---- arithmetic ----

  lemma Undone(a: real, b: real)
    requires b != 0.0
    ensures a / b * b == a
  {
  }

  lemma QuotientsOrder(a: real, b: real, c: real, d: real)
    requires b > 0.0 && d > 0.0 && a * d < c * b
    ensures a / b < c / d
  {
    var x, y := a / b, c / d;
    Undone(a, b);
    Undone(c, d);
    if x >= y {
      NotBelow(x, y, b, d);
    }
  }

  lemma NotBelow(x: real, y: real, b: real, d: real)
    requires x >= y && b > 0.0 && d > 0.0
    ensures x * b * d >= y * d * b
  {
    ProductsOrder(y, x, b * d);
    Regroup(x, b, d);
    Regroup(y, d, b);
  }

  lemma Regroup(x: real, b: real, d: real)
    ensures x * b * d == x * (b * d) == x * (d * b)
  {
  }

  lemma ProductsOrder(x: real, y: real, z: real)
    requires x <= y && z >= 0.0
    ensures x * z <= y * z
  {
  }

  lemma ProductsStrict(x: real, y: real, z: real)
    requires x < y && z > 0.0
    ensures x * z < y * z && z * x < z * y
  {
  }

  lemma Compared(p: real, q: real, r: real, x: real, y: real)
    requires p == r * x && q == r * y && x > y && r > 0.0
    ensures p > q
  {
    ProductsStrict(y, x, r);
  }

  // ---- one term ----

  /** The tokens of all documents. */
  lemma TotalIs(docs: Docs, d: DocId, terms: seq<Term>)
    ensures Total(Lengths(map[])) == 0
    ensures Total(Lengths(docs[d := terms])) == Total(Lengths(docs - {d})) + |terms|
  {
    var lengths := Lengths(docs[d := terms]);
    TotalSplits(lengths, d);
    assert lengths - {d} == Lengths(docs - {d});
  }

  /** The inverse document frequency in closed form. */
  function Rarity(ln: real -> real, docs: Docs, t: Term): real {
    ln((|docs| as real + 1.0) / (|Holding(docs, t)| as real + 0.5))
  }

  lemma IdfIs(ln: real -> real, docs: Docs, t: Term)
    ensures Idf(ln, |docs|, |Holding(docs, t)|) == Rarity(ln, docs, t)
  {
    var n, df := |docs| as real, |Holding(docs, t)| as real;
    SumOverOne(n - df + 0.5, df + 0.5);
    assert n - df + 0.5 + (df + 0.5) == n + 1.0;
  }

  lemma SumOverOne(a: real, b: real)
    requires b > 0.0
    ensures a / b + 1.0 == (a + b) / b
  {
    Undone(a, b);
    Undone(a + b, b);
    assert (a / b + 1.0) * b == a + b;
    Cancel(a / b + 1.0, (a + b) / b, b);
  }

  lemma Cancel(x: real, y: real, z: real)
    requires x * z == y * z && z > 0.0
    ensures x == y
  {
    if x < y {
      ProductsStrict(x, y, z);
    } else if y < x {
      ProductsStrict(y, x, z);
    }
  }

  /** The document's length against the average of all. */
  ghost function Relative(docs: Docs, d: DocId): (r: real)
    requires d in docs && docs[d] != []
    ensures r >= 0.0
  {
    SomeLength(docs, d);
    Ratio(|docs[d]|, Average(docs))
  }

  lemma RelativeIs(docs: Docs, d: DocId)
    requires d in docs && docs[d] != []
    ensures Relative(docs, d) * Total(Lengths(docs)) as real == |docs[d]| as real * |docs| as real
  {
    SomeLength(docs, d);
    var a, n, total := |docs[d]| as real, |docs| as real, Total(Lengths(docs)) as real;
    Undone(total, n);
    Undone(a, total / n);
    TimesOut(Relative(docs, d), total / n, n, a, total);
  }

  lemma TimesOut(r: real, average: real, n: real, a: real, total: real)
    requires r * average == a && average * n == total
    ensures r * total == a * n
  {
    Regroup(r, average, n);
  }

  /** What weighs against a term's frequency, a quarter of it regardless of the length. */
  ghost function Damping(docs: Docs, d: DocId): (w: real)
    requires d in docs && docs[d] != []
    ensures w > 0.0
  {
    0.375 + 1.125 * Relative(docs, d)
  }

  function Frequency(docs: Docs, t: Term, d: DocId): nat
    requires d in docs
  {
    multiset(docs[d])[t]
  }

  lemma {:induction false} ScoreAdds(ln: real -> real, docs: Docs, q: seq<Term>, q': seq<Term>, d: DocId)
    ensures Score(ln, docs, q + q', d) == Score(ln, docs, q, d) + Score(ln, docs, q', d)
    decreases |q'|
  {
    if q' == [] {
      assert q + q' == q;
    } else {
      var last := |q'| - 1;
      ScoreAdds(ln, docs, q, q'[..last], d);
      assert (q + q')[..|q + q'| - 1] == q + q'[..last];
    }
  }

  lemma ScoreOfOne(ln: real -> real, docs: Docs, t: Term, d: DocId)
    ensures Score(ln, docs, [t], d) == Contribution(ln, docs, t, d)
  {
    assert [t][..0] == [];
  }

  function Saturated(f: real, w: real): real
    requires f + w != 0.0
  {
    2.5 * f / (f + w)
  }

  lemma OneTerm(ln: real -> real, docs: Docs, t: Term, d: DocId)
    requires d in docs && t in docs[d]
    ensures Frequency(docs, t, d) > 0
    ensures Score(ln, docs, [t], d)
      == Rarity(ln, docs, t) * Saturated(Frequency(docs, t, d) as real, Damping(docs, d))
  {
    ScoreOfOne(ln, docs, t, d);
    IdfIs(ln, docs, t);
    SomeLength(docs, d);
    NormTfIs(Frequency(docs, t, d), |docs[d]|, Average(docs));
  }

  lemma NormTfIs(f: nat, length: nat, average: real)
    requires f > 0 && average > 0.0
    ensures NormTf(f, length, average) == Saturated(f as real, 0.375 + 1.125 * Ratio(length, average))
  {
  }

  predicate Balanced(score: real, rarity: real, f: real, w: real) { score * (f + w) == rarity * (2.5 * f) }

  /** The score of one term, with the constants worked in: its rarity times 2.5 f / (f + 0.375 + 1.125 r),
      where r is the document's length against the average. */
  lemma TermScoreIs(ln: real -> real, docs: Docs, t: Term, d: DocId)
    requires d in docs && t in docs[d]
    ensures Damping(docs, d) == 0.375 + 1.125 * Relative(docs, d)
    ensures Balanced(Score(ln, docs, [t], d), Rarity(ln, docs, t), Frequency(docs, t, d) as real, Damping(docs, d))
  {
    var r, x := OneFactor(ln, docs, t, d);
    TimesSaturated(Score(ln, docs, [t], d), r, x, Frequency(docs, t, d) as real, Damping(docs, d));
  }

  lemma AbsentScoresNothing(ln: real -> real, docs: Docs, t: Term, d: DocId)
    requires d !in docs || t !in docs[d]
    ensures Score(ln, docs, [t], d) == 0.0
  {
    ScoreOfOne(ln, docs, t, d);
  }

  lemma TimesSaturated(p: real, r: real, x: real, f: real, w: real)
    requires f > 0.0 && w > 0.0 && p == r * x && x == Saturated(f, w)
    ensures Balanced(p, r, f, w)
  {
    Undone(2.5 * f, f + w);
    Regroup(r, x, f + w);
  }

  // ---- rarity, frequency, length ----

  ghost predicate Increasing(ln: real -> real) { forall x, y :: 0.0 < x < y ==> ln(x) < ln(y) }

  /** As a logarithm does: increasing, and zero at one. */
  ghost predicate LikeLn(ln: real -> real) { Increasing(ln) && ln(1.0) == 0.0 }

  lemma RarityPositive(ln: real -> real, docs: Docs, t: Term)
    requires LikeLn(ln)
    ensures Rarity(ln, docs, t) > 0.0
  {
    DfBounded(docs, t);
    var n, df := |docs| as real, |Holding(docs, t)| as real;
    QuotientsOrder(1.0, 1.0, n + 1.0, df + 0.5);
  }

  lemma RarerIsHigher(ln: real -> real, docs: Docs, rare: Term, common: Term)
    requires Increasing(ln) && |Holding(docs, rare)| < |Holding(docs, common)|
    ensures Rarity(ln, docs, rare) > Rarity(ln, docs, common)
  {
    var n, few, many := |docs| as real, |Holding(docs, rare)| as real, |Holding(docs, common)| as real;
    var a, b, d := n + 1.0, many + 0.5, few + 0.5;
    ProductsStrict(d, b, a);
    PositiveQuotient(a, b);
    QuotientsOrder(a, b, a, d);
  }

  lemma SaturatedPositive(f: real, w: real)
    requires f > 0.0 && w > 0.0
    ensures 0.0 < Saturated(f, w) < 2.5
  {
    PositiveQuotient(2.5 * f, f + w);
    QuotientsOrder(2.5 * f, f + w, 2.5, 1.0);
  }

  lemma SaturatedGrows(f: real, f': real, w: real)
    requires 0.0 < f < f' && w > 0.0
    ensures Saturated(f, w) < Saturated(f', w)
  {
    var a, b, c, d := 2.5 * f, f + w, 2.5 * f', f' + w;
    ProductsStrict(f, f', w);
    Crossed(f, f', w, a, b, c, d);
    QuotientsOrder(a, b, c, d);
  }

  lemma Crossed(f: real, f': real, w: real, a: real, b: real, c: real, d: real)
    requires f * w < f' * w
    requires a == 2.5 * f && b == f + w && c == 2.5 * f' && d == f' + w
    ensures a * d < c * b
  {
    assert a * d == 2.5 * (f * f') + 2.5 * (f * w);
    assert c * b == 2.5 * (f * f') + 2.5 * (f' * w);
  }

  lemma SaturatedFalls(f: real, w: real, w': real)
    requires f > 0.0 && 0.0 < w < w'
    ensures Saturated(f, w') < Saturated(f, w)
  {
    var a, b, d := 2.5 * f, f + w', f + w;
    ProductsStrict(d, b, a);
    QuotientsOrder(a, b, a, d);
  }

  lemma OneFactor(ln: real -> real, docs: Docs, t: Term, d: DocId) returns (r: real, x: real)
    requires d in docs && t in docs[d]
    ensures Score(ln, docs, [t], d) == r * x && r == Rarity(ln, docs, t)
    ensures Frequency(docs, t, d) > 0 && x == Saturated(Frequency(docs, t, d) as real, Damping(docs, d)) > 0.0
  {
    OneTerm(ln, docs, t, d);
    r, x := Rarity(ln, docs, t), Saturated(Frequency(docs, t, d) as real, Damping(docs, d));
    SaturatedPositive(Frequency(docs, t, d) as real, Damping(docs, d));
  }

  lemma RarerFactors(
    ln: real -> real, docs: Docs, rare: Term, common: Term, a: DocId, b: DocId)
    returns (r: real, r': real, x: real)
    requires Increasing(ln) && |Holding(docs, rare)| < |Holding(docs, common)|
    requires a in docs && b in docs && rare in docs[a] && common in docs[b] && |docs[a]| == |docs[b]|
    requires Frequency(docs, rare, a) == Frequency(docs, common, b)
    ensures r > r' && x > 0.0
    ensures Score(ln, docs, [rare], a) == x * r && Score(ln, docs, [common], b) == x * r'
  {
    RarerIsHigher(ln, docs, rare, common);
    SameLength(docs, a, b);
    r, x := OneFactor(ln, docs, rare, a);
    r', x := OneFactor(ln, docs, common, b);
  }

  /** At the same frequency and length, the term that fewer documents hold scores strictly more. */
  lemma RarerScoresMore(ln: real -> real, docs: Docs, rare: Term, common: Term, a: DocId, b: DocId)
    requires Increasing(ln) && |Holding(docs, rare)| < |Holding(docs, common)|
    requires a in docs && b in docs && rare in docs[a] && common in docs[b] && |docs[a]| == |docs[b]|
    requires Frequency(docs, rare, a) == Frequency(docs, common, b)
    ensures Score(ln, docs, [rare], a) > Score(ln, docs, [common], b)
  {
    var r, r', x := RarerFactors(ln, docs, rare, common, a, b);
    Compared(Score(ln, docs, [rare], a), Score(ln, docs, [common], b), x, r, r');
  }

  lemma SameLength(docs: Docs, a: DocId, b: DocId)
    requires a in docs && b in docs && docs[a] != [] && |docs[a]| == |docs[b]|
    ensures Damping(docs, a) == Damping(docs, b)
  {
  }

  lemma FrequencyFactors(ln: real -> real, docs: Docs, t: Term, a: DocId, b: DocId)
    returns (r: real, x: real, y: real)
    requires LikeLn(ln) && a in docs && b in docs && t in docs[a] && t in docs[b] && |docs[a]| == |docs[b]|
    requires Frequency(docs, t, a) > Frequency(docs, t, b)
    ensures r > 0.0 && x > y && Score(ln, docs, [t], a) == r * x && Score(ln, docs, [t], b) == r * y
  {
    RarityPositive(ln, docs, t);
    SameLength(docs, a, b);
    r, x := OneFactor(ln, docs, t, a);
    r, y := OneFactor(ln, docs, t, b);
    SaturatedGrows(Frequency(docs, t, b) as real, Frequency(docs, t, a) as real, Damping(docs, a));
  }

  /** At the same length, the document that holds the term more often scores strictly more. */
  lemma MoreOftenScoresMore(ln: real -> real, docs: Docs, t: Term, a: DocId, b: DocId)
    requires LikeLn(ln) && a in docs && b in docs && t in docs[a] && t in docs[b] && |docs[a]| == |docs[b]|
    requires Frequency(docs, t, a) > Frequency(docs, t, b)
    ensures Score(ln, docs, [t], a) > Score(ln, docs, [t], b)
  {
    var r, x, y := FrequencyFactors(ln, docs, t, a, b);
    Compared(Score(ln, docs, [t], a), Score(ln, docs, [t], b), r, x, y);
  }

  lemma LengthFactors(ln: real -> real, docs: Docs, t: Term, a: DocId, b: DocId) returns (r: real, x: real, y: real)
    requires LikeLn(ln) && a in docs && b in docs && t in docs[a] && t in docs[b] && |docs[a]| < |docs[b]|
    requires Frequency(docs, t, a) == Frequency(docs, t, b)
    ensures r > 0.0 && x > y && Score(ln, docs, [t], a) == r * x && Score(ln, docs, [t], b) == r * y
  {
    RarityPositive(ln, docs, t);
    ShorterIsSmaller(docs, a, b);
    r, x := OneFactor(ln, docs, t, a);
    r, y := OneFactor(ln, docs, t, b);
    SaturatedFalls(Frequency(docs, t, a) as real, Damping(docs, a), Damping(docs, b));
  }

  /** At the same frequency, the shorter document scores strictly more. */
  lemma ShorterScoresMore(ln: real -> real, docs: Docs, t: Term, a: DocId, b: DocId)
    requires LikeLn(ln) && a in docs && b in docs && t in docs[a] && t in docs[b] && |docs[a]| < |docs[b]|
    requires Frequency(docs, t, a) == Frequency(docs, t, b)
    ensures Score(ln, docs, [t], a) > Score(ln, docs, [t], b)
  {
    var r, x, y := LengthFactors(ln, docs, t, a, b);
    Compared(Score(ln, docs, [t], a), Score(ln, docs, [t], b), r, x, y);
  }

  lemma ShorterIsSmaller(docs: Docs, a: DocId, b: DocId)
    requires a in docs && b in docs && docs[a] != [] && |docs[a]| < |docs[b]|
    ensures Damping(docs, a) < Damping(docs, b)
  {
    SomeLength(docs, a);
    var average := Average(docs);
    ProductsStrict(|docs[a]| as real, |docs[b]| as real, average);
    QuotientsOrder(|docs[a]| as real, average, |docs[b]| as real, average);
  }

  /** However often a term occurs, it scores less than 2.5 times its rarity. */
  lemma TermScoreBounded(ln: real -> real, docs: Docs, t: Term, d: DocId)
    requires LikeLn(ln)
    ensures Score(ln, docs, [t], d) < 2.5 * Rarity(ln, docs, t)
  {
    ScoreOfOne(ln, docs, t, d);
    RarityPositive(ln, docs, t);
    if d in docs && t in docs[d] {
      OneTerm(ln, docs, t, d);
      var f, w := Frequency(docs, t, d) as real, Damping(docs, d);
      SaturatedPositive(f, w);
      ProductsStrict(Saturated(f, w), 2.5, Rarity(ln, docs, t));
    }
  }

  // ---- the order of the answers ----

  lemma HigherIsAhead(ln: real -> real, docs: Docs, query: seq<Term>, k: nat, hits: seq<Hit>, a: DocId, j: nat)
    requires IsTopK(ln, docs, query, k, hits) && j < |hits|
    requires a in Matching(docs, query) && Score(ln, docs, query, a) > Score(ln, docs, query, hits[j].id)
    ensures exists i :: 0 <= i < j && hits[i].id == a
  {
    assert ScoreOf(ln, docs, query)(a) > hits[j].score;
    assert a in IdsOf(hits);
    var i :| 0 <= i < |hits| && hits[i].id == a;
    assert hits[i].score == ScoreOf(ln, docs, query)(a);
  }

  /** Asked for a rare and a common term, a search puts the document with the rare one ahead of an equally
      long one that has the common one as often. */
  lemma RarerComesFirst(
    ln: real -> real, docs: Docs, rare: Term, common: Term, k: nat, hits: seq<Hit>, a: DocId, j: nat)
    requires Increasing(ln) && |Holding(docs, rare)| < |Holding(docs, common)|
    requires IsTopK(ln, docs, [rare, common], k, hits) && j < |hits|
    requires var b := hits[j].id;
      && a in docs && b in docs && |docs[a]| == |docs[b]|
      && rare in docs[a] && common !in docs[a] && rare !in docs[b] && common in docs[b]
      && Frequency(docs, rare, a) == Frequency(docs, common, b)
    ensures exists i :: 0 <= i < j && hits[i].id == a
  {
    var b, query := hits[j].id, [rare, common];
    assert query == [rare] + [common];
    ScoreAdds(ln, docs, [rare], [common], a);
    ScoreAdds(ln, docs, [rare], [common], b);
    AbsentScoresNothing(ln, docs, common, a);
    AbsentScoresNothing(ln, docs, rare, b);
    RarerScoresMore(ln, docs, rare, common, a, b);
    assert query[0] in docs[a];
    HigherIsAhead(ln, docs, query, k, hits, a, j);
  }
}
