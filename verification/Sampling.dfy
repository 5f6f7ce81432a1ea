/** Top-k and nucleus filtering of next-token probabilities, in the client's in-place form
    (client/candle-server/src/sampling.rs) and the node's mask form (inference/node_forward.py).
    Probabilities are exact reals; logits enter as their exponentials, which keep their order. */
module Sampling {
  import opened Wrappers

  // ---- sums ----

  function Prefix(vals: seq<real>, m: nat): real
    requires m <= |vals|
  {
    if m == 0 then 0.0 else Prefix(vals, m - 1) + vals[m - 1]
  }

  function Sum(ps: seq<real>): real { Prefix(ps, |ps|) }

  /** Total probability of the tokens of s below n. */
  function Mass(ps: seq<real>, s: set<nat>, n: nat): real
    requires n <= |ps|
  {
    if n == 0 then 0.0 else Mass(ps, s, n - 1) + if n - 1 in s then ps[n - 1] else 0.0
  }

  function Kept(ps: seq<real>, s: set<nat>): (qs: seq<real>)
    ensures |qs| == |ps|
  {
    seq(|ps|, i requires 0 <= i < |ps| => if i in s then ps[i] else 0.0)
  }

  function Renormalised(ps: seq<real>): (qs: seq<real>)
    ensures |qs| == |ps|
  {
    if Sum(ps) > 0.0 then Scaled(ps, Sum(ps)) else ps
  }

  function Scaled(ps: seq<real>, d: real): (qs: seq<real>)
    requires d > 0.0
    ensures |qs| == |ps|
  {
    seq(|ps|, i requires 0 <= i < |ps| => ps[i] / d)
  }

  predicate NonNegative(ps: seq<real>) { forall i :: 0 <= i < |ps| ==> ps[i] >= 0.0 }

  // ---- rankings ----

  /** The indices of ps, largest value first; ties in any order. */
  predicate Ranking(ps: seq<real>, r: seq<nat>) {
    && |r| == |ps|
    && (forall i :: 0 <= i < |r| ==> r[i] < |ps|)
    && (forall i, j :: 0 <= i < j < |r| ==> r[i] != r[j])
    && (forall i, j :: 0 <= i < j < |r| ==> ps[r[i]] >= ps[r[j]])
  }

  function Values(ps: seq<real>, r: seq<nat>): (vals: seq<real>)
    requires forall i :: 0 <= i < |r| ==> r[i] < |ps|
    ensures |vals| == |r|
  {
    seq(|r|, j requires 0 <= j < |r| => ps[r[j]])
  }

  function Top(r: seq<nat>, m: nat): set<nat>
    requires m <= |r|
  {
    set j | 0 <= j < m :: r[j]
  }

  /** The stable descending sort of the indices below n. */
  function Ranked(ps: seq<real>, n: nat): seq<nat>
    requires n <= |ps|
  {
    if n == 0 then [] else Place(ps, Ranked(ps, n - 1), n - 1)
  }

  function Place(ps: seq<real>, r: seq<nat>, x: nat): (r': seq<nat>)
    ensures |r'| == |r| + 1
  {
    if r == [] || x >= |ps| || r[0] >= |ps| || ps[x] > ps[r[0]] then [x] + r else [r[0]] + Place(ps, r[1..], x)
  }

  ghost predicate Sorted(ps: seq<real>, r: seq<nat>, n: nat) {
    && n <= |ps|
    && (forall i :: 0 <= i < |r| ==> r[i] < n)
    && (forall i, j :: 0 <= i < j < |r| ==> r[i] != r[j])
    && (forall i, j :: 0 <= i < j < |r| ==> ps[r[i]] >= ps[r[j]])
  }

  lemma {:induction false} PlaceSorts(ps: seq<real>, r: seq<nat>, x: nat)
    requires Sorted(ps, r, x) && x < |ps|
    ensures Sorted(ps, Place(ps, r, x), x + 1)
    ensures forall i :: 0 <= i <= |r| ==> Place(ps, r, x)[i] == x || Place(ps, r, x)[i] in r
  {
    if r != [] && ps[x] <= ps[r[0]] {
      var rest := Place(ps, r[1..], x);
      PlaceSorts(ps, r[1..], x);
      BehindFirst(ps, r, x, rest);
      PrependSorts(ps, r[0], rest, x + 1);
    } else {
      PrependSorts(ps, x, r, x + 1);
    }
  }

  lemma BehindFirst(ps: seq<real>, r: seq<nat>, x: nat, rest: seq<nat>)
    requires Sorted(ps, r, x) && r != [] && x < |ps| && ps[x] <= ps[r[0]]
    requires forall i :: 0 <= i < |rest| ==> rest[i] == x || rest[i] in r[1..]
    ensures forall i :: 0 <= i < |rest| ==> rest[i] < |ps| && rest[i] != r[0] && ps[rest[i]] <= ps[r[0]]
    ensures forall i :: 0 <= i < |rest| ==> rest[i] == x || rest[i] in r
  {
    forall i | 0 <= i < |rest| && rest[i] != x
      ensures rest[i] < |ps| && rest[i] != r[0] && ps[rest[i]] <= ps[r[0]] && rest[i] in r
    {
      var j :| 0 <= j < |r[1..]| && rest[i] == r[1..][j];
      assert r[j + 1] == rest[i];
    }
  }

  lemma PrependSorts(ps: seq<real>, x: nat, rest: seq<nat>, n: nat)
    requires x < n <= |ps| && forall i :: 0 <= i < |rest| ==> rest[i] < n
    requires forall i, j :: 0 <= i < j < |rest| ==> rest[i] != rest[j] && ps[rest[i]] >= ps[rest[j]]
    requires forall i :: 0 <= i < |rest| ==> rest[i] != x && ps[rest[i]] <= ps[x]
    ensures Sorted(ps, [x] + rest, n)
  {
  }

  lemma {:induction false} RankedIsRanking(ps: seq<real>, n: nat)
    requires n <= |ps|
    ensures Sorted(ps, Ranked(ps, n), n) && |Ranked(ps, n)| == n
  {
    if n > 0 {
      RankedIsRanking(ps, n - 1);
      PlaceSorts(ps, Ranked(ps, n - 1), n - 1);
    }
  }

  lemma {:induction false} TopSize(r: seq<nat>, m: nat)
    requires m <= |r|
    requires forall i, j :: 0 <= i < j < |r| ==> r[i] != r[j]
    ensures |Top(r, m)| == m
  {
    if m > 0 {
      TopSize(r, m - 1);
      assert Top(r, m) == Top(r, m - 1) + {r[m - 1]};
    }
  }

  function Below(n: nat): (s: set<nat>)
    ensures forall i: nat :: i in s <==> i < n
  {
    if n == 0 then {} else Below(n - 1) + {n - 1}
  }

  lemma {:induction false} BelowSize(n: nat)
    ensures |Below(n)| == n
  {
    if n > 0 {
      BelowSize(n - 1);
    }
  }

  lemma SubsetSize<T>(s: set<T>, t: set<T>)
    requires s <= t
    ensures |s| <= |t| && (|s| == |t| ==> s == t)
  {
    assert t == s + (t - s);
  }

  /** A ranking mentions every token. */
  lemma RankingOnto(ps: seq<real>, r: seq<nat>)
    requires Ranking(ps, r)
    ensures Top(r, |r|) == Below(|ps|)
  {
    TopSize(r, |r|);
    BelowSize(|ps|);
    SubsetSize(Top(r, |r|), Below(|ps|));
  }

  // ---- the exchange argument ----

  function Count(s: set<nat>, n: nat): nat {
    if n == 0 then 0 else Count(s, n - 1) + if n - 1 in s then 1 else 0
  }

  lemma {:induction false} CountIsSize(s: set<nat>, n: nat)
    requires forall i :: i in s ==> i < n
    ensures Count(s, n) == |s|
    decreases n
  {
    if n == 0 {
      assert s == {};
    } else {
      var rest := s - {n - 1};
      CountIsSize(rest, n - 1);
      CountAgrees(s, rest, n - 1);
      assert s == if n - 1 in s then rest + {n - 1} else rest;
    }
  }

  lemma {:induction false} CountAgrees(s: set<nat>, t: set<nat>, n: nat)
    requires forall i: nat :: i < n ==> (i in s <==> i in t)
    ensures Count(s, n) == Count(t, n)
  {
    if n > 0 {
      CountAgrees(s, t, n - 1);
    }
  }

  /** The cost of a set of tokens when each costs `level`. */
  function Cost(level: real, s: set<nat>, n: nat): real {
    if n == 0 then 0.0 else Cost(level, s, n - 1) + if n - 1 in s then level else 0.0
  }

  lemma {:induction false} SameCost(level: real, s: set<nat>, n: nat)
    ensures Cost(level, s, n) == level * Count(s, n) as real
  {
    if n > 0 {
      SameCost(level, s, n - 1);
      assert level * (Count(s, n - 1) as real + 1.0) == level * Count(s, n - 1) as real + level;
    }
  }

  /** Token by token: the set of all tokens above a level gains most once each token costs the level. */
  lemma {:induction false} Exchange(ps: seq<real>, s: set<nat>, top: set<nat>, level: real, n: nat)
    requires n <= |ps|
    requires forall i: nat :: i < n ==> if i in top then ps[i] >= level else ps[i] <= level
    ensures Mass(ps, s, n) - Cost(level, s, n) <= Mass(ps, top, n) - Cost(level, top, n)
  {
    if n > 0 {
      Exchange(ps, s, top, level, n - 1);
    }
  }

  lemma {:induction false} MassAdds(ps: seq<real>, s: set<nat>, x: nat, n: nat)
    requires n <= |ps| && x !in s
    ensures Mass(ps, s + {x}, n) == Mass(ps, s, n) + if x < n then ps[x] else 0.0
  {
    if n > 0 {
      MassAdds(ps, s, x, n - 1);
    }
  }

  lemma {:induction false} NoMass(ps: seq<real>, n: nat)
    requires n <= |ps|
    ensures Mass(ps, {}, n) == 0.0
  {
    if n > 0 {
      NoMass(ps, n - 1);
    }
  }

  lemma {:induction false} TopMass(ps: seq<real>, r: seq<nat>, m: nat)
    requires Ranking(ps, r) && m <= |r|
    ensures Mass(ps, Top(r, m), |ps|) == Prefix(Values(ps, r), m)
  {
    if m == 0 {
      NoMass(ps, |ps|);
      assert Top(r, 0) == {};
    } else {
      TopMass(ps, r, m - 1);
      assert Top(r, m) == Top(r, m - 1) + {r[m - 1]};
      MassAdds(ps, Top(r, m - 1), r[m - 1], |ps|);
    }
  }

  lemma AboveIsHeaviest(ps: seq<real>, s: set<nat>, top: set<nat>, level: real)
    requires s <= Below(|ps|) && top <= Below(|ps|) && |s| == |top|
    requires forall i: nat :: i < |ps| ==> if i in top then ps[i] >= level else ps[i] <= level
    ensures Mass(ps, s, |ps|) <= Mass(ps, top, |ps|)
  {
    var n := |ps|;
    Exchange(ps, s, top, level, n);
    CountIsSize(s, n);
    CountIsSize(top, n);
    SameCost(level, s, n);
    SameCost(level, top, n);
  }

  /** No set of m tokens weighs more than the first m of a ranking. */
  lemma TopIsHeaviest(ps: seq<real>, r: seq<nat>, s: set<nat>)
    requires Ranking(ps, r) && s <= Below(|ps|)
    ensures |s| <= |ps|
    ensures Mass(ps, s, |ps|) <= Prefix(Values(ps, r), |s|)
  {
    var n, m := |ps|, |s|;
    BelowSize(n);
    SubsetSize(s, Below(n));
    if m == 0 {
      assert s == {};
      NoMass(ps, n);
    } else {
      TopIsAbove(ps, r, m);
      TopSize(r, m);
      AboveIsHeaviest(ps, s, Top(r, m), ps[r[m - 1]]);
      TopMass(ps, r, m);
    }
  }

  lemma TopIsAbove(ps: seq<real>, r: seq<nat>, m: nat)
    requires Ranking(ps, r) && 0 < m <= |r|
    ensures forall i: nat :: i < |ps| ==> if i in Top(r, m) then ps[i] >= ps[r[m - 1]] else ps[i] <= ps[r[m - 1]]
  {
    RankingOnto(ps, r);
    forall i: nat | i < |ps| ensures if i in Top(r, m) then ps[i] >= ps[r[m - 1]] else ps[i] <= ps[r[m - 1]] {
      assert i in Top(r, |r|);
      var j :| 0 <= j < |r| && r[j] == i;
    }
  }

  // ---- the cutoff ----

  /** The first prefix that reaches p, or everything. */
  predicate IsCutoff(vals: seq<real>, p: real, c: nat) {
    && c <= |vals|
    && (forall j :: 0 < j < c ==> Prefix(vals, j) < p)
    && (if c > 0 && Prefix(vals, c) >= p then true else c == |vals|)
  }

  function CutoffFrom(vals: seq<real>, p: real, i: nat): (c: nat)
    requires i <= |vals|
    requires forall j :: 0 < j <= i ==> Prefix(vals, j) < p
    ensures IsCutoff(vals, p, c)
    decreases |vals| - i
  {
    if i == |vals| then i else if Prefix(vals, i + 1) >= p then i + 1 else CutoffFrom(vals, p, i + 1)
  }

  method Cutoff(vals: seq<real>, p: real) returns (c: nat)
    ensures c == CutoffFrom(vals, p, 0)
  {
    var cum := 0.0;
    for i := 0 to |vals|
      invariant cum == Prefix(vals, i)
      invariant forall j :: 0 < j <= i ==> Prefix(vals, j) < p
      invariant CutoffFrom(vals, p, i) == CutoffFrom(vals, p, 0)
    {
      cum := cum + vals[i];
      if cum >= p {
        return i + 1;
      }
    }
    c := |vals|;
  }

  lemma {:induction false} AllMass(ps: seq<real>, s: set<nat>, n: nat)
    requires n <= |ps| && Below(n) <= s
    ensures Mass(ps, s, n) == Prefix(ps, n)
  {
    if n > 0 {
      assert n - 1 in Below(n) && Below(n - 1) <= s;
      AllMass(ps, s, n - 1);
    }
  }

  /** The kept tokens reach the mass asked for, and no smaller set of tokens does. */
  lemma NucleusIsSmallest(ps: seq<real>, r: seq<nat>, p: real, c: nat)
    requires Ranking(ps, r) && IsCutoff(Values(ps, r), p, c)
    requires 0.0 < p <= Sum(ps)
    ensures Mass(ps, Top(r, c), |ps|) >= p
    ensures forall s: set<nat> :: s <= Below(|ps|) && Mass(ps, s, |ps|) >= p ==> |s| >= c
  {
    var vals := Values(ps, r);
    RankingOnto(ps, r);
    TopMass(ps, r, |r|);
    AllMass(ps, Below(|ps|), |ps|);
    TopMass(ps, r, c);
    forall s: set<nat> | s <= Below(|ps|) && Mass(ps, s, |ps|) >= p ensures |s| >= c {
      TopIsHeaviest(ps, r, s);
    }
  }

  // ---- the client: in place ----

  function TopK(ps: seq<real>, k: nat): seq<real> {
    RankedIsRanking(ps, |ps|);
    if k < |ps| then Renormalised(KeptFirst(ps, Ranked(ps, |ps|), k)) else ps
  }

  function KeptFirst(ps: seq<real>, r: seq<nat>, k: nat): (qs: seq<real>)
    requires k <= |r|
    ensures |qs| == |ps|
  {
    Kept(ps, Top(r, k))
  }

  function Nucleus(ps: seq<real>, p: real): seq<real> {
    RankedIsRanking(ps, |ps|);
    var r := Ranked(ps, |ps|);
    Renormalised(KeptFirst(ps, r, CutoffFrom(Values(ps, r), p, 0)))
  }

  function ClientFilter(ps: seq<real>, topK: Option<nat>, topP: Option<real>): seq<real> {
    var few := if topK.Some? then TopK(ps, topK.value) else ps;
    if topP.Some? then Nucleus(few, topP.value) else few
  }

  /** Zero the entries that rank k or later, then divide by what is left. */
  method KeepFirst(probs: array<real>, r: seq<nat>, k: nat)
    requires Ranking(probs[..], r) && k <= |r|
    modifies probs
    ensures probs[..] == Renormalised(KeptFirst(old(probs[..]), r, k))
  {
    ghost var ps := probs[..];
    for j := k to |r|
      invariant forall i :: 0 <= i < |ps| ==> probs[i] == if exists l :: k <= l < j && r[l] == i then 0.0 else ps[i]
    {
      probs[r[j]] := 0.0;
    }
    assert probs[..] == KeptFirst(ps, r, k) by {
      RankingOnto(ps, r);
      forall i | 0 <= i < |ps| ensures probs[i] == KeptFirst(ps, r, k)[i] {
        assert i in Top(r, |r|);
      }
    }
    DivideBySum(probs);
  }

  method DivideBySum(probs: array<real>)
    modifies probs
    ensures probs[..] == Renormalised(old(probs[..]))
  {
    ghost var ps := probs[..];
    var sum := 0.0;
    for i := 0 to probs.Length
      invariant sum == Prefix(ps, i) && probs[..] == ps
    {
      sum := sum + probs[i];
    }
    if sum > 0.0 {
      for i := 0 to probs.Length
        invariant forall j :: 0 <= j < i ==> probs[j] == ps[j] / sum
        invariant forall j :: i <= j < |ps| ==> probs[j] == ps[j]
      {
        probs[i] := probs[i] / sum;
      }
    }
  }

  /** The filtering part of `sample_next_token`. */
  method FilterInPlace(probs: array<real>, topK: Option<nat>, topP: Option<real>)
    modifies probs
    ensures probs[..] == ClientFilter(old(probs[..]), topK, topP)
  {
    if topK.Some? && topK.value < probs.Length {
      RankedIsRanking(probs[..], probs.Length);
      KeepFirst(probs, Ranked(probs[..], probs.Length), topK.value);
    }
    if topP.Some? {
      RankedIsRanking(probs[..], probs.Length);
      var r := Ranked(probs[..], probs.Length);
      var c := Cutoff(Values(probs[..], r), topP.value);
      KeepFirst(probs, r, c);
    }
  }

  // ---- the node: masks over weights ----

  /** Every weight not below the k-th largest stays. */
  function NodeTopK(ws: seq<real>, k: nat): (masked: seq<real>)
    ensures |masked| == |ws|
  {
    RankedIsRanking(ws, |ws|);
    if 0 < k < |ws| then
      var kth := ws[Ranked(ws, |ws|)[k - 1]];
      seq(|ws|, i requires 0 <= i < |ws| => if ws[i] < kth then 0.0 else ws[i])
    else ws
  }

  /** Ranks whose cumulative probability before them is under p stay, and the first one in any case. */
  function NodeNucleus(ws: seq<real>, p: real): (masked: seq<real>)
    ensures |masked| == |ws|
  {
    RankedIsRanking(ws, |ws|);
    if 0.0 < p < 1.0 then
      var r := Ranked(ws, |ws|);
      var vals := Values(Renormalised(ws), r);
      Kept(ws, Unmasked(r, vals, p))
    else ws
  }

  function Unmasked(r: seq<nat>, vals: seq<real>, p: real): set<nat>
    requires |r| == |vals|
  {
    set j | 0 <= j < |r| && (j == 0 || Prefix(vals, j) < p) :: r[j]
  }

  function NodeFilter(ws: seq<real>, topK: Option<nat>, topP: Option<real>): seq<real> {
    var few := if topK.Some? then NodeTopK(ws, topK.value) else ws;
    Renormalised(if topP.Some? then NodeNucleus(few, topP.value) else few)
  }

  predicate Positive(ws: seq<real>) { forall i :: 0 <= i < |ws| ==> ws[i] > 0.0 }

  // ---- scaling ----

  lemma {:induction false} ScaledPrefix(ps: seq<real>, d: real, m: nat)
    requires d > 0.0 && m <= |ps|
    ensures Prefix(Scaled(ps, d), m) == Prefix(ps, m) / d
  {
    if m > 0 {
      ScaledPrefix(ps, d, m - 1);
      assert Prefix(ps, m - 1) / d + ps[m - 1] / d == (Prefix(ps, m - 1) + ps[m - 1]) / d;
    }
  }

  lemma {:induction false} PrefixNonNegative(ps: seq<real>, m: nat, n: nat)
    requires NonNegative(ps) && m <= n <= |ps|
    ensures 0.0 <= Prefix(ps, m) <= Prefix(ps, n)
    ensures Prefix(ps, m) == Prefix(ps, n) ==> forall i :: m <= i < n ==> ps[i] == 0.0
    decreases n
  {
    if m < n {
      PrefixNonNegative(ps, m, n - 1);
    } else if n > 0 {
      PrefixNonNegative(ps, m - 1, n - 1);
    }
  }

  lemma Ratio(x: real, s: real, d: real)
    requires s > 0.0 && d > 0.0
    ensures s / d > 0.0 && (x / d) / (s / d) == x / s
  {
    assert (s / d) * d == s;
    var q := x / s;
    assert x / d == q * (s / d) by {
      assert x == q * s;
      assert (q * (s / d)) * d == q * ((s / d) * d);
    }
  }

  lemma RenormaliseScaled(ps: seq<real>, d: real)
    requires NonNegative(ps) && d > 0.0
    ensures Renormalised(Scaled(ps, d)) == Renormalised(ps)
  {
    ScaledPrefix(ps, d, |ps|);
    PrefixNonNegative(ps, 0, |ps|);
    var s := Sum(ps);
    if s > 0.0 {
      Ratio(0.0, s, d);
      forall i | 0 <= i < |ps| ensures Renormalised(Scaled(ps, d))[i] == Renormalised(ps)[i] {
        Ratio(ps[i], s, d);
      }
    } else {
      assert Scaled(ps, d) == ps;
    }
  }

  lemma ScaledOrder(x: real, y: real, d: real)
    requires d > 0.0
    ensures x / d > y / d <==> x > y
  {
    assert x == (x / d) * d && y == (y / d) * d;
  }

  lemma {:induction false} PlaceScaled(ps: seq<real>, d: real, r: seq<nat>, x: nat)
    requires d > 0.0
    ensures Place(Scaled(ps, d), r, x) == Place(ps, r, x)
  {
    if !(r == [] || x >= |ps| || r[0] >= |ps|) {
      ScaledOrder(ps[x], ps[r[0]], d);
      PlaceScaled(ps, d, r[1..], x);
    }
  }

  lemma {:induction false} RankedScaled(ps: seq<real>, d: real, n: nat)
    requires n <= |ps| && d > 0.0
    ensures Ranked(Scaled(ps, d), n) == Ranked(ps, n)
  {
    if n > 0 {
      RankedScaled(ps, d, n - 1);
      PlaceScaled(ps, d, Ranked(ps, n - 1), n - 1);
    }
  }

  lemma KeptScaled(ps: seq<real>, d: real, s: set<nat>)
    requires NonNegative(ps) && d > 0.0
    ensures Renormalised(Kept(Scaled(ps, d), s)) == Renormalised(Kept(ps, s))
  {
    assert Kept(Scaled(ps, d), s) == Scaled(Kept(ps, s), d);
    RenormaliseScaled(Kept(ps, s), d);
  }

  // ---- the two filters agree ----

  lemma {:induction false} PrefixPositive(ps: seq<real>, i: nat, n: nat)
    requires NonNegative(ps) && i < n <= |ps|
    ensures Prefix(ps, n) >= ps[i]
    decreases n
  {
    if i < n - 1 {
      PrefixPositive(ps, i, n - 1);
    } else {
      PrefixNonNegative(ps, 0, n - 1);
    }
  }

  /** The loop's prefix and the mask "probability before me is under p" are the same ranks. */
  lemma CutoffIsMask(vals: seq<real>, p: real, j: nat)
    requires NonNegative(vals) && j < |vals|
    ensures j < CutoffFrom(vals, p, 0) <==> j == 0 || Prefix(vals, j) < p
  {
    var c := CutoffFrom(vals, p, 0);
    if c <= j {
      PrefixNonNegative(vals, c, j);
    }
  }

  lemma MaskKeepsCutoff(r: seq<nat>, vals: seq<real>, p: real)
    requires NonNegative(vals) && |r| == |vals|
    ensures Unmasked(r, vals, p) == Top(r, CutoffFrom(vals, p, 0))
  {
    forall j | 0 <= j < |r| ensures j < CutoffFrom(vals, p, 0) <==> j == 0 || Prefix(vals, j) < p {
      CutoffIsMask(vals, p, j);
    }
  }

  lemma NucleusAgrees(ws: seq<real>, p: real)
    requires NonNegative(ws) && Sum(ws) > 0.0 && 0.0 < p
    ensures Nucleus(Renormalised(ws), p) == Renormalised(NodeNucleus(ws, p))
  {
    if p < 1.0 {
      PartialNucleusAgrees(ws, p);
    } else {
      FullNucleusKeepsAll(ws, p);
    }
  }

  lemma PartialNucleusAgrees(ws: seq<real>, p: real)
    requires NonNegative(ws) && Sum(ws) > 0.0 && 0.0 < p < 1.0
    ensures Nucleus(Renormalised(ws), p) == Renormalised(NodeNucleus(ws, p))
  {
    var n, d := |ws|, Sum(ws);
    var r, qs := Ranked(ws, n), Scaled(ws, d);
    RankedIsRanking(ws, n);
    RankedScaled(ws, d, n);
    ScaledNonNegative(ws, d);
    MaskKeepsCutoff(r, Values(qs, r), p);
    KeptScaled(ws, d, Top(r, CutoffFrom(Values(qs, r), p, 0)));
  }

  lemma FullNucleusKeepsAll(ws: seq<real>, p: real)
    requires NonNegative(ws) && Sum(ws) > 0.0 && 1.0 <= p
    ensures Nucleus(Renormalised(ws), p) == Renormalised(ws)
  {
    var d := Sum(ws);
    var qs := Scaled(ws, d);
    ScaledNonNegative(ws, d);
    ScaledPrefix(ws, d, |ws|);
    RankedIsRanking(qs, |ws|);
    FullMassKeepsAll(qs, Ranked(qs, |ws|), p);
    RenormaliseScaled(ws, d);
  }

  lemma ScaledNonNegative(ps: seq<real>, d: real)
    requires NonNegative(ps) && d > 0.0
    ensures NonNegative(Scaled(ps, d))
  {
    forall i | 0 <= i < |ps| ensures ps[i] / d >= 0.0 {
      assert ps[i] == (ps[i] / d) * d;
    }
  }

  /** Asked for all the mass, the cutoff drops only tokens of probability zero. */
  lemma FullMassKeepsAll(qs: seq<real>, r: seq<nat>, p: real)
    requires NonNegative(qs) && Ranking(qs, r) && p >= Sum(qs)
    ensures KeptFirst(qs, r, CutoffFrom(Values(qs, r), p, 0)) == qs
  {
    var vals := Values(qs, r);
    var c := CutoffFrom(vals, p, 0);
    RankingOnto(qs, r);
    TopMass(qs, r, |r|);
    AllMass(qs, Below(|qs|), |qs|);
    PrefixNonNegative(vals, c, |vals|);
    forall i | 0 <= i < |qs| ensures i in Top(r, c) || qs[i] == 0.0 {
      assert i in Top(r, |r|);
      var j :| 0 <= j < |r| && r[j] == i;
      assert vals[j] == qs[i];
    }
  }

  /** The k-th rank is strictly above the next one. */
  predicate NoTie(ws: seq<real>, k: nat) {
    RankedIsRanking(ws, |ws|);
    0 < k && (k < |ws| ==> ws[Ranked(ws, |ws|)[k]] < ws[Ranked(ws, |ws|)[k - 1]])
  }

  lemma FirstRanks(ws: seq<real>, r: seq<nat>, k: nat, i: nat)
    requires Ranking(ws, r) && 0 < k < |r| && i < |ws| && ws[r[k]] < ws[r[k - 1]]
    ensures i in Top(r, k) <==> ws[i] >= ws[r[k - 1]]
  {
    RankingOnto(ws, r);
    assert i in Top(r, |r|);
    var j :| 0 <= j < |r| && r[j] == i;
  }

  lemma NodeTopKIsFirst(ws: seq<real>, k: nat)
    requires 0 < k < |ws| && NoTie(ws, k)
    ensures NodeTopK(ws, k) == (RankedIsRanking(ws, |ws|); KeptFirst(ws, Ranked(ws, |ws|), k))
  {
    var r := Ranked(ws, |ws|);
    RankedIsRanking(ws, |ws|);
    forall i | 0 <= i < |ws| ensures NodeTopK(ws, k)[i] == KeptFirst(ws, r, k)[i] {
      FirstRanks(ws, r, k, i);
    }
  }

  lemma TopKAgrees(ws: seq<real>, k: nat)
    requires NonNegative(ws) && Sum(ws) > 0.0 && NoTie(ws, k)
    ensures TopK(Renormalised(ws), k) == Renormalised(NodeTopK(ws, k))
  {
    var d, r := Sum(ws), Ranked(ws, |ws|);
    if k < |ws| {
      RankedIsRanking(ws, |ws|);
      RankedScaled(ws, d, |ws|);
      NodeTopKIsFirst(ws, k);
      KeptScaled(ws, d, Top(r, k));
    }
  }

  lemma TopKKeepsMass(ws: seq<real>, k: nat)
    requires Positive(ws) && ws != []
    ensures NonNegative(NodeTopK(ws, k)) && Sum(NodeTopK(ws, k)) > 0.0
  {
    RankedIsRanking(ws, |ws|);
    var i := if 0 < k < |ws| then Ranked(ws, |ws|)[k - 1] else 0;
    PrefixPositive(NodeTopK(ws, k), i, |ws|);
  }

  /** The client and the node sample from the same distribution, whatever the weights, unless the
      k-th and the next weight tie, k is 0, or top_p is not positive. */
  lemma FiltersAgree(ws: seq<real>, topK: Option<nat>, topP: Option<real>)
    requires Positive(ws) && ws != []
    requires topK.Some? ==> NoTie(ws, topK.value)
    requires topP.Some? ==> topP.value > 0.0
    ensures ClientFilter(Renormalised(ws), topK, topP) == NodeFilter(ws, topK, topP)
  {
    PrefixPositive(ws, 0, |ws|);
    if topK.Some? {
      TopKAgrees(ws, topK.value);
      TopKKeepsMass(ws, topK.value);
    }
    if topP.Some? {
      NucleusAgrees(if topK.Some? then NodeTopK(ws, topK.value) else ws, topP.value);
    }
  }

  lemma Weighty(ps: seq<real>, i: nat)
    requires NonNegative(ps) && i < |ps| && ps[i] > 0.0
    ensures Renormalised(ps)[i] > 0.0
  {
    PrefixPositive(ps, i, |ps|);
    var d := Sum(ps);
    assert ps[i] == (ps[i] / d) * d;
  }

  lemma DroppedIsZero(ps: seq<real>, r: seq<nat>, k: nat, j: nat)
    requires Ranking(ps, r) && k <= j < |r|
    ensures Renormalised(KeptFirst(ps, r, k))[r[j]] == 0.0
  {
    assert KeptFirst(ps, r, k)[r[j]] == 0.0;
  }

  /** Top-k alone: the two sides differ at a tie across the boundary, and at k = 0, where the client is
      left with no weight at all. */
  lemma TopKAgreesExactly(ws: seq<real>, k: nat)
    requires Positive(ws) && ws != []
    ensures ClientFilter(Renormalised(ws), Some(k), None) == NodeFilter(ws, Some(k), None) <==> NoTie(ws, k)
  {
    if NoTie(ws, k) {
      FiltersAgree(ws, Some(k), None);
    } else {
      var n := |ws|;
      var r, qs := Ranked(ws, n), Renormalised(ws);
      PrefixPositive(ws, 0, n);
      RankedIsRanking(ws, n);
      RankedIsRanking(qs, n);
      RankedScaled(ws, Sum(ws), n);
      DroppedIsZero(qs, r, k, k);
      Weighty(NodeTopK(ws, k), r[k]);
    }
  }

  /** Top-p alone: the client keeps just the first token when top_p is not positive, the node all. */
  lemma NucleusAgreesExactly(ws: seq<real>, p: real)
    requires Positive(ws) && ws != []
    ensures ClientFilter(Renormalised(ws), None, Some(p)) == NodeFilter(ws, None, Some(p)) <==> p > 0.0 || |ws| == 1
  {
    var n := |ws|;
    var r, qs := Ranked(ws, n), Renormalised(ws);
    PrefixPositive(ws, 0, n);
    RankedIsRanking(ws, n);
    RankedIsRanking(qs, n);
    RankedScaled(ws, Sum(ws), n);
    if p > 0.0 {
      FiltersAgree(ws, None, Some(p));
    } else {
      ScaledNonNegative(ws, Sum(ws));
      var vals := Values(qs, r);
      PrefixNonNegative(vals, 0, 1);
      assert CutoffFrom(vals, p, 0) == 1;
      if n > 1 {
        DroppedIsZero(qs, r, 1, 1);
        Weighty(ws, r[1]);
      } else {
        assert KeptFirst(qs, r, 1) == qs;
        RenormaliseScaled(ws, Sum(ws));
      }
    }
  }
}
