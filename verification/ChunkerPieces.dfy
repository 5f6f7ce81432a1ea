/** The chunks that splitting at boundaries makes (server/rag/src/chunker.rs, `split_at_pattern`): how many
    cuts the matches cause, where each chunk lies, and when a cut panics. */
module ChunkerPieces {
  import opened Wrappers
  import opened Chunker

  /** The match lies a whole chunk behind the start, and behind it. */
  predicate FarEnough(m: nat, start: nat, chunkSize: nat) { m > start && m >= start + chunkSize }

  /** How many chunks the matches cut off from here on, when each one starts a stride behind the other. */
  function Cuts(matches: seq<nat>, chunkSize: nat, stride: nat, start: nat): nat {
    if matches == [] then 0
    else if FarEnough(matches[0], start, chunkSize) then 1 + Cuts(matches[1..], chunkSize, stride, start + stride)
    else Cuts(matches[1..], chunkSize, stride, start)
  }

  /** The bytes between two positions, as far as there are such. */
  function Between(s: Text, a: nat, b: nat): Text { if a <= b <= |s| then s[a..b] else [] }

  function Tail(s: Text, start: nat): seq<Text> { if start < |s| then [s[start..]] else [] }

  /** The chunk does not start or end inside a character. */
  predicate CleanAt(s: Text, chunkSize: nat, start: nat) { Boundary(s, start) && Boundary(s, start + chunkSize) }

  predicate CleanTail(s: Text, start: nat) { start < |s| ==> Boundary(s, start) }

  /** After n more cuts from here, or a panic on the way. */
  function Planned(s: Text, chunkSize: nat, stride: nat, start: nat, n: nat): Option<seq<Text>>
    decreases n
  {
    if n == 0 then (if CleanTail(s, start) then Some(Tail(s, start)) else None)
    else if CleanAt(s, chunkSize, start) then
      Prepend(Between(s, start, start + chunkSize), Planned(s, chunkSize, stride, start + stride, n - 1))
    else None
  }

  lemma MatchCuts(s: Text, matches: seq<nat>, chunkSize: nat, overlap: nat, start: nat, rest: Option<seq<Text>>)
    requires overlap <= chunkSize && matches != [] && matches[0] <= |s| && FarEnough(matches[0], start, chunkSize)
    requires rest == PiecesFrom(s, matches[1..], chunkSize, overlap, start + chunkSize - overlap)
    ensures PiecesFrom(s, matches, chunkSize, overlap, start) ==
      if CleanAt(s, chunkSize, start) then Prepend(Between(s, start, start + chunkSize), rest) else None
  {
  }

  lemma PlannedCut(s: Text, chunkSize: nat, stride: nat, start: nat, n: nat, rest: Option<seq<Text>>)
    requires rest == Planned(s, chunkSize, stride, start + stride, n)
    ensures Planned(s, chunkSize, stride, start, n + 1) ==
      if CleanAt(s, chunkSize, start) then Prepend(Between(s, start, start + chunkSize), rest) else None
  {
  }

  lemma {:induction false} CutsPlanned(s: Text, matches: seq<nat>, chunkSize: nat, overlap: nat, start: nat)
    requires overlap <= chunkSize && forall i :: 0 <= i < |matches| ==> matches[i] <= |s|
    ensures var stride := chunkSize - overlap;
      PiecesFrom(s, matches, chunkSize, overlap, start)
      == Planned(s, chunkSize, stride, start, Cuts(matches, chunkSize, stride, start))
    decreases |matches|
  {
    if matches != [] {
      if FarEnough(matches[0], start, chunkSize) {
        var next := start + chunkSize - overlap;
        CutsPlanned(s, matches[1..], chunkSize, overlap, next);
        MatchCuts(s, matches, chunkSize, overlap, start, PiecesFrom(s, matches[1..], chunkSize, overlap, next));
        PlannedCut(s, chunkSize, chunkSize - overlap, start, Cuts(matches[1..], chunkSize, chunkSize - overlap, next),
                   PiecesFrom(s, matches[1..], chunkSize, overlap, next));
      } else {
        CutsPlanned(s, matches[1..], chunkSize, overlap, start);
      }
    }
  }

  // ---- how many, and how long ----

  lemma PlannedOpens(s: Text, chunkSize: nat, stride: nat, start: nat, n: nat)
    requires n > 0 && Planned(s, chunkSize, stride, start, n).Some?
    ensures var rest := Planned(s, chunkSize, stride, start + stride, n - 1);
      rest.Some? && CleanAt(s, chunkSize, start)
      && Planned(s, chunkSize, stride, start, n) == Some([Between(s, start, start + chunkSize)] + rest.value)
  {
  }

  predicate AllOfSize(pieces: seq<Text>, n: nat, size: nat) {
    n <= |pieces| && forall i :: 0 <= i < n ==> |pieces[i]| == size
  }

  lemma OneMoreOfSize(piece: Text, rest: seq<Text>, n: nat, size: nat)
    requires AllOfSize(rest, n, size) && |piece| == size
    ensures AllOfSize([piece] + rest, n + 1, size)
  {
  }

  lemma {:induction false} PlannedSizes(s: Text, chunkSize: nat, stride: nat, start: nat, n: nat)
    requires Planned(s, chunkSize, stride, start, n).Some?
    ensures var pieces := Planned(s, chunkSize, stride, start, n).value;
      AllOfSize(pieces, n, chunkSize) && n <= |pieces| <= n + 1
    decreases n
  {
    if n > 0 {
      PlannedOpens(s, chunkSize, stride, start, n);
      PlannedSizes(s, chunkSize, stride, start + stride, n - 1);
      OneMoreOfSize(Between(s, start, start + chunkSize), Planned(s, chunkSize, stride, start + stride, n - 1).value,
                    n - 1, chunkSize);
    }
  }

  /** There are as many chunks as cuts, each of exactly the chunk size, and at most a tail behind them. With the
      overlaps dropped they give back the text (`PiecesGlue`), so this says where each of them lies. */
  lemma PieceSizes(s: Text, matches: seq<nat>, chunkSize: nat, overlap: nat)
    requires overlap <= chunkSize && forall i :: 0 <= i < |matches| ==> matches[i] <= |s|
    requires PiecesFrom(s, matches, chunkSize, overlap, 0).Some?
    ensures var pieces, c := PiecesFrom(s, matches, chunkSize, overlap, 0).value,
                             Cuts(matches, chunkSize, chunkSize - overlap, 0);
      AllOfSize(pieces, c, chunkSize) && c <= |pieces| <= c + 1
  {
    CutsPlanned(s, matches, chunkSize, overlap, 0);
    PlannedSizes(s, chunkSize, chunkSize - overlap, 0, Cuts(matches, chunkSize, chunkSize - overlap, 0));
  }

  // ---- when it panics ----

  /** Where chunk i starts. */
  function Nth(stride: nat, start: nat, i: nat): nat
    decreases i
  {
    if i == 0 then start else Nth(stride, start + stride, i - 1)
  }

  lemma {:induction false} NthIs(stride: nat, start: nat, i: nat)
    ensures Nth(stride, start, i) == start + i * stride
    decreases i
  {
    if i > 0 {
      NthIs(stride, start + stride, i - 1);
      assert i * stride == (i - 1) * stride + stride;
    }
  }

  lemma {:induction false} CleanWhere(s: Text, chunkSize: nat, stride: nat, start: nat, n: nat, i: nat)
    requires Planned(s, chunkSize, stride, start, n).Some? && i <= n
    ensures if i < n then CleanAt(s, chunkSize, Nth(stride, start, i)) else CleanTail(s, Nth(stride, start, n))
    decreases n
  {
    if n > 0 {
      PlannedOpens(s, chunkSize, stride, start, n);
      if i > 0 {
        CleanWhere(s, chunkSize, stride, start + stride, n - 1, i - 1);
      }
    }
  }

  lemma {:induction false} PanicWhere(s: Text, chunkSize: nat, stride: nat, start: nat, n: nat) returns (i: nat)
    requires Planned(s, chunkSize, stride, start, n).None?
    ensures i <= n
    ensures if i < n then !CleanAt(s, chunkSize, Nth(stride, start, i)) else !CleanTail(s, Nth(stride, start, n))
    decreases n
  {
    i := 0;
    if n > 0 && CleanAt(s, chunkSize, start) {
      i := PanicWhere(s, chunkSize, stride, start + stride, n - 1);
      i := i + 1;
    }
  }

  /** Chunk i starts or ends inside a character, or the tail behind c cuts starts inside one. */
  predicate CutsCharacter(s: Text, chunkSize: nat, stride: nat, c: nat, i: nat) {
    if i < c then !CleanAt(s, chunkSize, i * stride) else i == c && !CleanTail(s, c * stride)
  }

  /** The split panics if and only if one of these places is inside a character. */
  lemma PanicsIff(s: Text, matches: seq<nat>, chunkSize: nat, overlap: nat)
    requires overlap <= chunkSize && forall i :: 0 <= i < |matches| ==> matches[i] <= |s|
    ensures var stride := chunkSize - overlap;
      PiecesFrom(s, matches, chunkSize, overlap, 0).None? <==>
        exists i: nat :: CutsCharacter(s, chunkSize, stride, Cuts(matches, chunkSize, stride, 0), i)
  {
    var stride := chunkSize - overlap;
    CutsPlanned(s, matches, chunkSize, overlap, 0);
    PlannedPanicsIff(s, chunkSize, stride, Cuts(matches, chunkSize, stride, 0));
  }

  lemma PlannedPanicsIff(s: Text, chunkSize: nat, stride: nat, c: nat)
    ensures Planned(s, chunkSize, stride, 0, c).None? <==> exists i: nat :: CutsCharacter(s, chunkSize, stride, c, i)
  {
    if Planned(s, chunkSize, stride, 0, c).None? {
      var i := PanicWhere(s, chunkSize, stride, 0, c);
      NthIs(stride, 0, i);
      assert CutsCharacter(s, chunkSize, stride, c, i);
    } else {
      forall i: nat ensures !CutsCharacter(s, chunkSize, stride, c, i) {
        if i <= c {
          CleanWhere(s, chunkSize, stride, 0, c, i);
          NthIs(stride, 0, i);
        }
      }
    }
  }
}
