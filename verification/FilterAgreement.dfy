/** When top-k and top-p together leave the client and the node with the same distribution: both keep a
    prefix of one ranking, and the two prefixes are compared. */
module FilterAgreement {
  import opened Wrappers
  import opened Sampling

  // ---- the stable ranking ----

  /** x is ranked before y: a larger weight, or the same at a smaller index. */
  predicate Ahead(ps: seq<real>, x: nat, y: nat)
    requires x < |ps| && y < |ps|
  {
    ps[x] > ps[y] || (ps[x] == ps[y] && x < y)
  }

  ghost predicate Stable(ps: seq<real>, r: seq<nat>, n: nat) {
    && n <= |ps|
    && (forall i :: 0 <= i < |r| ==> r[i] < n)
    && (forall i, j :: 0 <= i < j < |r| ==> Ahead(ps, r[i], r[j]))
  }

  lemma {:induction false} PlaceStable(ps: seq<real>, r: seq<nat>, x: nat)
    requires Stable(ps, r, x) && x < |ps|
    ensures Stable(ps, Place(ps, r, x), x + 1)
    ensures forall i :: 0 <= i <= |r| ==> Place(ps, r, x)[i] == x || Place(ps, r, x)[i] in r
  {
    if r != [] && ps[x] <= ps[r[0]] {
      var rest := Place(ps, r[1..], x);
      PlaceStable(ps, r[1..], x);
      AllBehind(ps, r, x, rest);
      PrependStable(ps, r[0], rest, x + 1);
    } else {
      FirstIsAhead(ps, r, x);
      PrependStable(ps, x, r, x + 1);
    }
  }

  lemma FirstIsAhead(ps: seq<real>, r: seq<nat>, x: nat)
    requires Stable(ps, r, x) && x < |ps| && (r != [] ==> ps[x] > ps[r[0]])
    ensures forall i :: 0 <= i < |r| ==> Ahead(ps, x, r[i])
  {
    assert forall i :: 0 < i < |r| ==> Ahead(ps, r[0], r[i]);
  }

  lemma AllBehind(ps: seq<real>, r: seq<nat>, x: nat, rest: seq<nat>)
    requires Stable(ps, r, x) && r != [] && x < |ps| && ps[x] <= ps[r[0]]
    requires forall i :: 0 <= i < |rest| ==> rest[i] == x || rest[i] in r[1..]
    ensures forall i :: 0 <= i < |rest| ==> rest[i] < |ps| && Ahead(ps, r[0], rest[i])
    ensures forall i :: 0 <= i < |rest| ==> rest[i] == x || rest[i] in r
  {
    forall i | 0 <= i < |rest| && rest[i] != x ensures rest[i] < |ps| && Ahead(ps, r[0], rest[i]) && rest[i] in r {
      var j :| 0 <= j < |r[1..]| && rest[i] == r[1..][j];
      assert r[j + 1] == rest[i];
    }
  }

  lemma PrependStable(ps: seq<real>, x: nat, rest: seq<nat>, n: nat)
    requires x < n && Stable(ps, rest, n) && forall i :: 0 <= i < |rest| ==> Ahead(ps, x, rest[i])
    ensures Stable(ps, [x] + rest, n)
  {
  }

  lemma {:induction false} RankedStable(ps: seq<real>, n: nat)
    requires n <= |ps|
    ensures Stable(ps, Ranked(ps, n), n)
  {
    if n > 0 {
      RankedStable(ps, n - 1);
      PlaceStable(ps, Ranked(ps, n - 1), n - 1);
    }
  }

  /** Every token has a rank. */
  lemma RankOf(ps: seq<real>, x: nat) returns (j: nat)
    requires x < |ps|
    ensures j < |Ranked(ps, |ps|)| && Ranked(ps, |ps|)[j] == x
  {
    RankedIsRanking(ps, |ps|);
    RankingOnto(ps, Ranked(ps, |ps|));
    assert x in Top(Ranked(ps, |ps|), |ps|);
    j :| 0 <= j < |ps| && Ranked(ps, |ps|)[j] == x;
  }

  function First(ws: seq<real>, k: nat): (qs: seq<real>)
    requires k <= |ws|
    ensures |qs| == |ws|
  {
    RankedIsRanking(ws, |ws|);
    KeptFirst(ws, Ranked(ws, |ws|), k)
  }

  lemma FirstAt(ws: seq<real>, k: nat, j: nat)
    requires k <= |ws| && j < |ws|
    ensures |Ranked(ws, |ws|)| == |ws| && Ranked(ws, |ws|)[j] < |ws|
    ensures First(ws, k)[Ranked(ws, |ws|)[j]] == if j < k then ws[Ranked(ws, |ws|)[j]] else 0.0
  {
    RankedIsRanking(ws, |ws|);
  }

  /** Zeroing what ranks k or later does not move the ranks before k. */
  lemma {:induction false} FirstKeepsRanks(ws: seq<real>, k: nat, i: nat)
    requires Positive(ws) && i < k <= |ws|
    ensures |Ranked(ws, |ws|)| == |Ranked(First(ws, k), |ws|)| == |ws|
    ensures Ranked(First(ws, k), |ws|)[i] == Ranked(ws, |ws|)[i]
    ensures forall j :: 0 <= j <= i ==> Ranked(First(ws, k), |ws|)[j] == Ranked(ws, |ws|)[j]
    decreases i
  {
    var qs, n := First(ws, k), |ws|;
    var r, r' := Ranked(ws, n), Ranked(qs, n);
    RankedIsRanking(ws, n);
    RankedIsRanking(qs, n);
    if i > 0 {
      FirstKeepsRanks(ws, k, i - 1);
    }
    var a := RankOf(qs, r[i]);
    var b := RankOf(ws, r'[i]);
    RanksClash(ws, k, i, a, b);
  }

  lemma RanksClash(ws: seq<real>, k: nat, i: nat, a: nat, b: nat)
    requires Positive(ws) && i < k <= |ws| && a < |ws| && b < |ws|
    requires |Ranked(ws, |ws|)| == |Ranked(First(ws, k), |ws|)| == |ws|
    requires Ranked(First(ws, k), |ws|)[a] == Ranked(ws, |ws|)[i]
    requires Ranked(ws, |ws|)[b] == Ranked(First(ws, k), |ws|)[i]
    requires forall j :: 0 <= j < i ==> Ranked(First(ws, k), |ws|)[j] == Ranked(ws, |ws|)[j]
    ensures Ranked(First(ws, k), |ws|)[i] == Ranked(ws, |ws|)[i]
  {
    var qs, n := First(ws, k), |ws|;
    var r, r' := Ranked(ws, n), Ranked(qs, n);
    RankedIsRanking(ws, n);
    RankedIsRanking(qs, n);
    RankedStable(ws, n);
    RankedStable(qs, n);
    FirstAt(ws, k, i);
    FirstAt(ws, k, b);
  }

  // ---- what each side keeps ----

  /** The weights in ranking order. */
  function Sorted(ws: seq<real>): (vals: seq<real>)
    ensures |vals| == |ws|
  {
    RankedIsRanking(ws, |ws|);
    Values(ws, Ranked(ws, |ws|))
  }

  /** The fewest of the first k ranks, from c on, that weigh as much as the goal, or all k of them. */
  function Reach(vals: seq<real>, k: nat, goal: real, c: nat): (r: nat)
    requires c <= k <= |vals|
    ensures c <= r <= k
    ensures forall j :: c <= j < r && j > 0 ==> Prefix(vals, j) < goal
    ensures r == k || (r > 0 && Prefix(vals, r) >= goal)
    decreases k - c
  {
    if c == k || (c > 0 && Prefix(vals, c) >= goal) then c else Reach(vals, k, goal, c + 1)
  }

  function Fraction(p: real, s: real): real { p * s }

  /** The fewest of the first k ranks that hold the fraction p of their weight, or all k of them. */
  function Share(vals: seq<real>, k: nat, p: real): (r: nat)
    requires k <= |vals|
    ensures r <= k
  {
    Reach(vals, k, Fraction(p, Prefix(vals, k)), 0)
  }

  lemma {:induction false} FirstPrefix(ws: seq<real>, k: nat, j: nat)
    requires Positive(ws) && j <= k <= |ws|
    ensures |Ranked(First(ws, k), |ws|)| == |ws| && forall i :: 0 <= i < |ws| ==> Ranked(First(ws, k), |ws|)[i] < |ws|
    ensures Prefix(Values(First(ws, k), Ranked(First(ws, k), |ws|)), j) == Prefix(Sorted(ws), j)
  {
    var qs, n := First(ws, k), |ws|;
    RankedIsRanking(qs, n);
    if j > 0 {
      FirstPrefix(ws, k, j - 1);
      SameValue(ws, k, j - 1);
    }
  }

  lemma SameValue(ws: seq<real>, k: nat, i: nat)
    requires Positive(ws) && i < k <= |ws|
    ensures |Ranked(First(ws, k), |ws|)| == |ws| && Ranked(First(ws, k), |ws|)[i] < |ws|
    ensures First(ws, k)[Ranked(First(ws, k), |ws|)[i]] == Sorted(ws)[i]
  {
    RankedIsRanking(First(ws, k), |ws|);
    FirstKeepsRanks(ws, k, i);
    FirstAt(ws, k, i);
  }

  lemma {:induction false} FirstPrefixRest(ws: seq<real>, k: nat, j: nat)
    requires Positive(ws) && k <= j <= |ws|
    ensures |Ranked(First(ws, k), |ws|)| == |ws| && forall i :: 0 <= i < |ws| ==> Ranked(First(ws, k), |ws|)[i] < |ws|
    ensures Prefix(Values(First(ws, k), Ranked(First(ws, k), |ws|)), j) == Prefix(Sorted(ws), k)
    decreases j
  {
    if j == k {
      FirstPrefix(ws, k, k);
    } else {
      FirstPrefixRest(ws, k, j - 1);
      LateRankIsZero(ws, k, j - 1);
    }
  }

  /** Behind the first k ranks there are only zeros. */
  lemma LateRankIsZero(ws: seq<real>, k: nat, j: nat)
    requires Positive(ws) && k <= j < |ws|
    ensures |Ranked(First(ws, k), |ws|)| == |ws| && Ranked(First(ws, k), |ws|)[j] < |ws|
    ensures First(ws, k)[Ranked(First(ws, k), |ws|)[j]] == 0.0
  {
    var qs, n := First(ws, k), |ws|;
    var r, r' := Ranked(ws, n), Ranked(qs, n);
    RankedIsRanking(ws, n);
    RankedIsRanking(qs, n);
    var b := RankOf(ws, r'[j]);
    FirstAt(ws, k, b);
    if b < k {
      FirstKeepsRanks(ws, k, b);
    }
  }

  lemma RankedSum(ps: seq<real>)
    ensures |Ranked(ps, |ps|)| == |ps| && forall i :: 0 <= i < |ps| ==> Ranked(ps, |ps|)[i] < |ps|
    ensures Prefix(Values(ps, Ranked(ps, |ps|)), |ps|) == Sum(ps)
  {
    RankedIsRanking(ps, |ps|);
    RankingOnto(ps, Ranked(ps, |ps|));
    TopMass(ps, Ranked(ps, |ps|), |ps|);
    AllMass(ps, Below(|ps|), |ps|);
  }

  lemma FirstIsWeighty(ws: seq<real>, k: nat)
    requires Positive(ws) && k <= |ws|
    ensures NonNegative(First(ws, k)) && (k > 0 ==> Sum(First(ws, k)) > 0.0)
  {
    var n := |ws|;
    RankedIsRanking(ws, n);
    if k > 0 {
      FirstAt(ws, k, 0);
      PrefixPositive(First(ws, k), Ranked(ws, n)[0], n);
    }
  }

  lemma FirstSum(ws: seq<real>, k: nat)
    requires Positive(ws) && k <= |ws|
    ensures Sum(First(ws, k)) == Prefix(Sorted(ws), k)
  {
    FirstPrefixRest(ws, k, |ws|);
    RankedSum(First(ws, k));
  }

  /** Cutting the ranking of the first k off at c. */
  lemma CutOfFirst(ws: seq<real>, k: nat, c: nat)
    requires Positive(ws) && k <= |ws| && c <= |ws|
    ensures |Ranked(First(ws, k), |ws|)| == |ws|
    ensures Kept(First(ws, k), Top(Ranked(First(ws, k), |ws|), c)) == First(ws, if c < k then c else k)
  {
    var qs, n, m := First(ws, k), |ws|, if c < k then c else k;
    var r, r' := Ranked(ws, n), Ranked(qs, n);
    RankedIsRanking(qs, n);
    RankedIsRanking(ws, n);
    forall x: nat | x < n ensures Kept(qs, Top(r', c))[x] == First(ws, m)[x] {
      var j := RankOf(qs, x);
      var b := RankOf(ws, x);
      SameRank(ws, k, j, b);
      FirstAt(ws, k, b);
      FirstAt(ws, m, b);
      InTop(r', c, j);
    }
  }

  lemma InTop(r: seq<nat>, c: nat, j: nat)
    requires c <= |r| && j < |r| && forall i, l :: 0 <= i < l < |r| ==> r[i] != r[l]
    ensures r[j] in Top(r, c) <==> j < c
  {
  }

  lemma SameRank(ws: seq<real>, k: nat, j: nat, b: nat)
    requires Positive(ws) && k <= |ws| && j < |ws| && b < |ws|
    requires |Ranked(ws, |ws|)| == |Ranked(First(ws, k), |ws|)| == |ws|
    requires Ranked(First(ws, k), |ws|)[j] == Ranked(ws, |ws|)[b]
    ensures if j < k then b == j else b >= k
  {
    RankedIsRanking(ws, |ws|);
    RankedIsRanking(First(ws, k), |ws|);
    if j < k {
      FirstKeepsRanks(ws, k, j);
    } else if b < k {
      FirstKeepsRanks(ws, k, b);
    }
  }

  lemma ReachUnique(vals: seq<real>, k: nat, goal: real, m: nat)
    requires 0 < m <= k <= |vals|
    requires forall j :: 0 < j < m ==> Prefix(vals, j) < goal
    requires m == k || Prefix(vals, m) >= goal
    ensures m == Reach(vals, k, goal, 0)
  {
  }

  lemma Quotient(y: real, x: real, s: real, p: real)
    requires s > 0.0 && y == x / s
    ensures y >= p <==> x >= Fraction(p, s)
  {
    assert x == y * s;
    assert x - p * s == (y - p) * s;
  }

  lemma ScaledValues(qs: seq<real>, r: seq<nat>, d: real, j: nat)
    requires d > 0.0 && j <= |r| && forall i :: 0 <= i < |r| ==> r[i] < |qs|
    ensures Prefix(Values(Scaled(qs, d), r), j) == Prefix(Values(qs, r), j) / d
  {
    assert Values(Scaled(qs, d), r) == Scaled(Values(qs, r), d);
    ScaledPrefix(Values(qs, r), d, j);
  }

  /** The renormalised first k, in ranking order. */
  function Shares(ws: seq<real>, k: nat): (vals: seq<real>)
    requires Positive(ws) && 0 < k <= |ws|
    ensures |vals| == |ws|
  {
    FirstIsWeighty(ws, k);
    RankedIsRanking(First(ws, k), |ws|);
    Values(Scaled(First(ws, k), Sum(First(ws, k))), Ranked(First(ws, k), |ws|))
  }

  lemma ScaledTest(qs: seq<real>, r: seq<nat>, d: real, j: nat, p: real)
    requires d > 0.0 && j <= |r| && forall i :: 0 <= i < |r| ==> r[i] < |qs|
    ensures Prefix(Values(Scaled(qs, d), r), j) >= p <==> Prefix(Values(qs, r), j) >= Fraction(p, d)
  {
    ScaledValues(qs, r, d, j);
    Quotient(Prefix(Values(Scaled(qs, d), r), j), Prefix(Values(qs, r), j), d, p);
  }

  lemma SameTest(ws: seq<real>, k: nat, p: real, j: nat)
    requires Positive(ws) && 0 < k <= |ws| && j <= k
    ensures Prefix(Shares(ws, k), j) >= p <==> Prefix(Sorted(ws), j) >= Fraction(p, Prefix(Sorted(ws), k))
  {
    FirstIsWeighty(ws, k);
    FirstPrefix(ws, k, j);
    FirstSum(ws, k);
    ScaledTest(First(ws, k), Ranked(First(ws, k), |ws|), Sum(First(ws, k)), j, p);
  }

  lemma CutBySameTest(vals: seq<real>, sorted: seq<real>, k: nat, p: real, goal: real)
    requires 0 < k <= |vals| == |sorted|
    requires forall j: nat :: j <= k ==> (Prefix(vals, j) >= p <==> Prefix(sorted, j) >= goal)
    ensures var c := CutoffFrom(vals, p, 0); (if c < k then c else k) == Reach(sorted, k, goal, 0)
  {
    var c := CutoffFrom(vals, p, 0);
    ReachUnique(sorted, k, goal, if c < k then c else k);
  }

  /** The cutoff of the renormalised first k, as far as they go. */
  lemma CutIsShare(ws: seq<real>, k: nat, p: real)
    requires Positive(ws) && 0 < k <= |ws|
    ensures var c := CutoffFrom(Shares(ws, k), p, 0); (if c < k then c else k) == Share(Sorted(ws), k, p)
  {
    forall j: nat | j <= k
      ensures Prefix(Shares(ws, k), j) >= p <==> Prefix(Sorted(ws), j) >= Fraction(p, Prefix(Sorted(ws), k))
    {
      SameTest(ws, k, p, j);
    }
    CutBySameTest(Shares(ws, k), Sorted(ws), k, p, Fraction(p, Prefix(Sorted(ws), k)));
  }

  /** Nucleus filtering of a renormalised prefix keeps a shorter prefix. */
  lemma NucleusIsFirst(ws: seq<real>, k: nat, p: real)
    requires Positive(ws) && 0 < k <= |ws|
    ensures Nucleus(Renormalised(First(ws, k)), p) == Renormalised(First(ws, Share(Sorted(ws), k, p)))
  {
    var qs, n := First(ws, k), |ws|;
    FirstIsWeighty(ws, k);
    var d := Sum(qs);
    RankedIsRanking(qs, n);
    RankedScaled(qs, d, n);
    var c := CutoffFrom(Shares(ws, k), p, 0);
    KeptScaled(qs, d, Top(Ranked(qs, n), c));
    CutOfFirst(ws, k, c);
    CutIsShare(ws, k, p);
  }

  // ---- the two sides compared ----

  /** Ranks of weight at least the k-th: where the node's top-k stops. */
  function TieEnd(vals: seq<real>, k: nat, e: nat): (r: nat)
    requires 0 < k <= e <= |vals|
    ensures e <= r <= |vals|
    ensures forall j :: e <= j < r ==> vals[j] >= vals[k - 1]
    ensures r < |vals| ==> vals[r] < vals[k - 1]
    decreases |vals| - e
  {
    if e == |vals| || vals[e] < vals[k - 1] then e else TieEnd(vals, k, e + 1)
  }

  /** How many ranks top-k leaves on the node, where 0 means no limit, and on the client. */
  function NodeRanks(vals: seq<real>, topK: Option<nat>): (r: nat)
    ensures r <= |vals| && (vals != [] ==> r > 0)
  {
    if topK.Some? && 0 < topK.value < |vals| then TieEnd(vals, topK.value, topK.value) else |vals|
  }

  function ClientRanks(vals: seq<real>, topK: Option<nat>): (r: nat)
    ensures r <= |vals|
  {
    if topK.Some? && topK.value < |vals| then topK.value else |vals|
  }

  /** How many ranks are left after top-p as well. */
  function NodeKeeps(vals: seq<real>, topK: Option<nat>, topP: Option<real>): (r: nat)
    ensures r <= |vals|
  {
    if topP.Some? && 0.0 < topP.value < 1.0 then Share(vals, NodeRanks(vals, topK), topP.value)
    else NodeRanks(vals, topK)
  }

  function ClientKeeps(vals: seq<real>, topK: Option<nat>, topP: Option<real>): (r: nat)
    ensures r <= |vals|
  {
    if topP.Some? then Share(vals, ClientRanks(vals, topK), topP.value) else ClientRanks(vals, topK)
  }

  lemma AllRanks(ws: seq<real>)
    ensures First(ws, |ws|) == ws
  {
    var n := |ws|;
    RankedIsRanking(ws, n);
    RankingOnto(ws, Ranked(ws, n));
  }

  lemma {:induction false} SortedDescends(ws: seq<real>, i: nat, j: nat)
    requires i <= j < |ws|
    ensures Sorted(ws)[i] >= Sorted(ws)[j]
  {
    RankedIsRanking(ws, |ws|);
  }

  lemma NodeTopKIsPrefix(ws: seq<real>, k: nat)
    requires 0 < k < |ws|
    ensures NodeTopK(ws, k) == First(ws, TieEnd(Sorted(ws), k, k))
  {
    var e := TieEnd(Sorted(ws), k, k);
    RankedIsRanking(ws, |ws|);
    forall x: nat | x < |ws| ensures NodeTopK(ws, k)[x] == First(ws, e)[x] {
      var b := RankOf(ws, x);
      FirstAt(ws, e, b);
      AboveTie(ws, k, b);
    }
  }

  lemma AboveTie(ws: seq<real>, k: nat, b: nat)
    requires 0 < k < |ws| && b < |ws|
    ensures Sorted(ws)[b] >= Sorted(ws)[k - 1] <==> b < TieEnd(Sorted(ws), k, k)
  {
    var e := TieEnd(Sorted(ws), k, k);
    if b < k {
      SortedDescends(ws, b, k - 1);
    } else if b >= e {
      SortedDescends(ws, e, b);
    }
  }

  lemma NodeKeepsFirst(ws: seq<real>, topK: Option<nat>, topP: Option<real>)
    requires Positive(ws) && ws != []
    ensures NodeFilter(ws, topK, topP) == Renormalised(First(ws, NodeKeeps(Sorted(ws), topK, topP)))
  {
    var k := NodeRanks(Sorted(ws), topK);
    var few := if topK.Some? then NodeTopK(ws, topK.value) else ws;
    AllRanks(ws);
    if topK.Some? && 0 < topK.value < |ws| {
      NodeTopKIsPrefix(ws, topK.value);
    }
    assert few == First(ws, k);
    if topP.Some? && 0.0 < topP.value < 1.0 {
      FirstIsWeighty(ws, k);
      NucleusAgrees(few, topP.value);
      NucleusIsFirst(ws, k, topP.value);
    }
  }

  lemma ClientTopKIsPrefix(ws: seq<real>, k: nat)
    requires Positive(ws) && k < |ws|
    ensures TopK(Renormalised(ws), k) == Renormalised(First(ws, k))
  {
    FirstIsWeighty(ws, |ws|);
    AllRanks(ws);
    var d := Sum(ws);
    RankedIsRanking(ws, |ws|);
    RankedScaled(ws, d, |ws|);
    KeptScaled(ws, d, Top(Ranked(ws, |ws|), k));
  }

  /** With no rank left the client is left with zeros. */
  lemma NothingKept(ws: seq<real>, p: real)
    requires Positive(ws)
    ensures Renormalised(First(ws, 0)) == First(ws, 0) && Nucleus(First(ws, 0), p) == First(ws, 0)
  {
    FirstSum(ws, 0);
    var zeros := First(ws, 0);
    RankedIsRanking(zeros, |ws|);
    forall x: nat | x < |ws| ensures zeros[x] == 0.0 {
      var b := RankOf(ws, x);
      FirstAt(ws, 0, b);
    }
    var c := CutoffFrom(Values(zeros, Ranked(zeros, |ws|)), p, 0);
    assert KeptFirst(zeros, Ranked(zeros, |ws|), c) == zeros;
  }

  lemma ClientKeepsFirst(ws: seq<real>, topK: Option<nat>, topP: Option<real>)
    requires Positive(ws) && ws != []
    ensures ClientFilter(Renormalised(ws), topK, topP) == Renormalised(First(ws, ClientKeeps(Sorted(ws), topK, topP)))
  {
    var k := ClientRanks(Sorted(ws), topK);
    AllRanks(ws);
    if topK.Some? && topK.value < |ws| {
      ClientTopKIsPrefix(ws, topK.value);
    }
    if topP.Some? {
      if k > 0 {
        NucleusIsFirst(ws, k, topP.value);
      } else {
        NothingKept(ws, topP.value);
      }
    }
  }

  lemma PrefixesDiffer(ws: seq<real>, a: nat, b: nat)
    requires Positive(ws) && a < b <= |ws|
    ensures Renormalised(First(ws, a)) != Renormalised(First(ws, b))
  {
    RankedIsRanking(ws, |ws|);
    var x := Ranked(ws, |ws|)[a];
    FirstAt(ws, a, a);
    FirstAt(ws, b, a);
    FirstIsWeighty(ws, b);
    Weighty(First(ws, b), x);
    ZeroStays(First(ws, a), x);
  }

  lemma ZeroStays(ps: seq<real>, x: nat)
    requires x < |ps| && ps[x] == 0.0
    ensures Renormalised(ps)[x] == 0.0
  {
  }

  /** Client and node sample from the same distribution if and only if they keep equally many ranks. */
  lemma FiltersAgreeExactly(ws: seq<real>, topK: Option<nat>, topP: Option<real>)
    requires Positive(ws) && ws != []
    ensures ClientFilter(Renormalised(ws), topK, topP) == NodeFilter(ws, topK, topP)
      <==> ClientKeeps(Sorted(ws), topK, topP) == NodeKeeps(Sorted(ws), topK, topP)
  {
    var a, b := ClientKeeps(Sorted(ws), topK, topP), NodeKeeps(Sorted(ws), topK, topP);
    ClientKeepsFirst(ws, topK, topP);
    NodeKeepsFirst(ws, topK, topP);
    if a < b {
      PrefixesDiffer(ws, a, b);
    } else if b < a {
      PrefixesDiffer(ws, b, a);
    }
  }

  // ---- the same as a test on the weights ----

  /** Without top-p nothing may be tied at the boundary. A top-p that is not positive leaves the client one
      token. A proper top-p forgives a tie if the client's ranks reach the share of the node's weight, too. */
  predicate SameCut(vals: seq<real>, topK: Option<nat>, topP: Option<real>) {
    var c, n := ClientRanks(vals, topK), NodeRanks(vals, topK);
    if topP.None? || topP.value >= 1.0 then c == n
    else if topP.value <= 0.0 then c > 0 && n == 1
    else c > 0 && (c == n || Prefix(vals, Share(vals, c, topP.value)) >= Fraction(topP.value, Prefix(vals, n)))
  }

  predicate Descending(vals: seq<real>) {
    && (forall i :: 0 <= i < |vals| ==> vals[i] > 0.0)
    && (forall i, j :: 0 <= i <= j < |vals| ==> vals[i] >= vals[j])
  }

  lemma {:induction false} PrefixGrows(vals: seq<real>, i: nat, j: nat)
    requires Descending(vals) && i <= j <= |vals|
    ensures 0.0 <= Prefix(vals, i) <= Prefix(vals, j)
    ensures i < j ==> Prefix(vals, i) < Prefix(vals, j)
    decreases j
  {
    if i < j {
      PrefixGrows(vals, i, j - 1);
    } else if i > 0 {
      PrefixGrows(vals, i - 1, i - 1);
    }
  }

  /** All of the weight is only reached by all of the ranks, and none of it by the first. */
  lemma ReachAllOrNothing(vals: seq<real>, k: nat, goal: real)
    requires Descending(vals) && 0 < k <= |vals|
    ensures goal >= Prefix(vals, k) ==> Reach(vals, k, goal, 0) == k
    ensures goal <= 0.0 ==> Reach(vals, k, goal, 0) == 1
  {
    PrefixGrows(vals, Reach(vals, k, goal, 0), k);
    PrefixGrows(vals, 0, 1);
  }

  lemma ShareOfAllOrNothing(vals: seq<real>, k: nat, p: real)
    requires Descending(vals) && 0 < k <= |vals|
    ensures p >= 1.0 ==> Share(vals, k, p) == k
    ensures p <= 0.0 ==> Share(vals, k, p) == 1
  {
    PrefixGrows(vals, 0, k);
    GoalBounds(p, Prefix(vals, k));
    ReachAllOrNothing(vals, k, Fraction(p, Prefix(vals, k)));
  }

  lemma GoalBounds(p: real, s: real)
    requires s > 0.0
    ensures p >= 1.0 ==> Fraction(p, s) >= s
    ensures p <= 0.0 ==> Fraction(p, s) <= 0.0
    ensures p < 1.0 ==> Fraction(p, s) < s
  {
    assert p * s - s == (p - 1.0) * s;
  }

  /** A larger goal, among more ranks, is reached later or at the same rank. */
  lemma ReachOfMore(vals: seq<real>, c: nat, n: nat, few: real, many: real)
    requires Descending(vals) && 0 < c < n <= |vals| && few <= many < Prefix(vals, n)
    ensures Reach(vals, c, few, 0) == Reach(vals, n, many, 0) <==> Prefix(vals, Reach(vals, c, few, 0)) >= many
  {
    var a, b := Reach(vals, c, few, 0), Reach(vals, n, many, 0);
    if Prefix(vals, a) >= many {
      ReachUnique(vals, n, many, a);
    }
  }

  lemma ShareOfMore(vals: seq<real>, c: nat, n: nat, p: real)
    requires Descending(vals) && 0 < c < n <= |vals| && 0.0 < p < 1.0
    ensures Share(vals, c, p) == Share(vals, n, p) <==> Prefix(vals, Share(vals, c, p)) >= Fraction(p, Prefix(vals, n))
  {
    PrefixGrows(vals, c, n);
    LargerGoal(p, Prefix(vals, c), Prefix(vals, n));
    GoalBounds(p, Prefix(vals, n));
    ReachOfMore(vals, c, n, Fraction(p, Prefix(vals, c)), Fraction(p, Prefix(vals, n)));
  }

  lemma LargerGoal(p: real, x: real, y: real)
    requires p > 0.0 && x <= y
    ensures Fraction(p, x) <= Fraction(p, y)
  {
    assert p * y - p * x == p * (y - x);
  }

  lemma SortedIsDescending(ws: seq<real>)
    requires Positive(ws)
    ensures Descending(Sorted(ws))
  {
    RankedIsRanking(ws, |ws|);
    forall i, j | 0 <= i <= j < |ws| ensures Sorted(ws)[i] >= Sorted(ws)[j] {
      SortedDescends(ws, i, j);
    }
  }

  /** Equally many ranks are kept exactly when the test says so. */
  lemma SameCutIsExact(vals: seq<real>, topK: Option<nat>, topP: Option<real>)
    requires Descending(vals) && vals != []
    ensures ClientKeeps(vals, topK, topP) == NodeKeeps(vals, topK, topP) <==> SameCut(vals, topK, topP)
  {
    var c, n := ClientRanks(vals, topK), NodeRanks(vals, topK);
    if topP.Some? {
      SharesEqual(vals, c, n, topP.value);
    }
  }

  lemma SharesEqual(vals: seq<real>, c: nat, n: nat, p: real)
    requires Descending(vals) && c <= n <= |vals| && n > 0
    ensures var a, b := Share(vals, c, p), if 0.0 < p < 1.0 then Share(vals, n, p) else n;
      a == b <==>
        if p >= 1.0 then c == n
        else if p <= 0.0 then c > 0 && n == 1
        else c > 0 && (c == n || Prefix(vals, Share(vals, c, p)) >= Fraction(p, Prefix(vals, n)))
  {
    ShareOfAllOrNothing(vals, n, p);
    if c > 0 {
      ShareOfAllOrNothing(vals, c, p);
      if 0.0 < p < 1.0 && c < n {
        ShareOfMore(vals, c, n, p);
      }
    } else {
      ShareIsSome(vals, n, p);
    }
  }

  lemma ShareIsSome(vals: seq<real>, n: nat, p: real)
    requires 0 < n <= |vals|
    ensures Share(vals, n, p) > 0
  {
  }

  /** For all weights and all parameters: the two sides sample from the same distribution if and only if
      the test on the sorted weights holds. */
  lemma FiltersAgreeIff(ws: seq<real>, topK: Option<nat>, topP: Option<real>)
    requires Positive(ws) && ws != []
    ensures ClientFilter(Renormalised(ws), topK, topP) == NodeFilter(ws, topK, topP)
      <==> SameCut(Sorted(ws), topK, topP)
  {
    SortedIsDescending(ws);
    FiltersAgreeExactly(ws, topK, topP);
    SameCutIsExact(Sorted(ws), topK, topP);
  }
}
