/** Splitting a document into overlapping chunks (server/rag/src/chunker.rs). A text is its UTF-8
    bytes, with sequences of one to four bytes as in section 3 of RFC 3629. */
module Chunker {
  import opened Wrappers

  type Byte = b: nat | b < 0x100

  type Text = seq<Byte>

  predicate Continuation(b: Byte) { 0x80 <= b < 0xC0 }

  /** Bytes of the sequence that starts with b. */
  function Width(b: Byte): (w: nat)
    ensures 1 <= w <= 4
  {
    if b < 0xC0 then 1 else if b < 0xE0 then 2 else if b < 0xF0 then 3 else 4
  }

  predicate Utf8(s: Text)
    decreases |s|
  {
    s == [] || (
      && !Continuation(s[0]) && s[0] < 0xF8
      && Width(s[0]) <= |s|
      && (forall i :: 1 <= i < Width(s[0]) ==> Continuation(s[i]))
      && Utf8(s[Width(s[0])..]))
  }

  /** Bytes of the longest sequence in the text. */
  function Widest(s: Text): (w: nat)
    ensures 1 <= w <= 4
    decreases |s|
  {
    if s == [] then 1 else
      var rest := Widest(s[Min(Width(s[0]), |s|)..]);
      if Width(s[0]) < rest then rest else Width(s[0])
  }

  /** `is_char_boundary`. */
  predicate Boundary(s: Text, i: nat) {
    i == 0 || i == |s| || (i < |s| && !Continuation(s[i]))
  }

  function Snap(s: Text, i: nat): nat {
    if i == 0 || Boundary(s, i) then i else Snap(s, i - 1)
  }

  method SnapToCharBoundary(s: Text, index: nat) returns (i: nat)
    ensures i == Snap(s, index)
  {
    i := index;
    while i > 0 && !Boundary(s, i)
      invariant Snap(s, i) == Snap(s, index)
    {
      i := i - 1;
    }
  }

  function Back(end: nat, overlap: nat): nat { if end < overlap then 0 else end - overlap }

  function Min(a: nat, b: nat): nat { if a < b then a else b }

  // ---- boundaries of a text ----

  lemma {:induction false} SnapIsBoundary(s: Text, i: nat)
    ensures Snap(s, i) <= i && Boundary(s, Snap(s, i))
    ensures forall k :: Snap(s, i) < k <= i ==> !Boundary(s, k)
  {
    if i > 0 && !Boundary(s, i) {
      SnapIsBoundary(s, i - 1);
    }
  }

  /** Among as many neighbouring positions as the longest sequence has bytes, one is a boundary. */
  lemma {:induction false} BoundaryNearby(s: Text, i: nat) returns (b: nat)
    requires Utf8(s) && i <= |s|
    ensures b <= i < b + Widest(s) && Boundary(s, b)
    decreases |s|
  {
    if i == 0 || i == |s| {
      b := i;
    } else {
      var w := Width(s[0]);
      if i < w {
        b := 0;
      } else {
        b := BoundaryNearby(s[w..], i - w);
        b := b + w;
        TailBoundaries(s, w);
        assert Min(w, |s|) == w;
      }
    }
  }

  lemma TailBoundaries(s: Text, w: nat)
    requires w <= |s| && Utf8(s[w..])
    ensures forall k :: 0 <= k <= |s| - w && Boundary(s[w..], k) ==> Boundary(s, w + k)
  {
    TailStarts(s, w);
  }

  lemma TailStarts(s: Text, w: nat)
    requires w <= |s| && Utf8(s[w..])
    ensures Boundary(s, w)
  {
    if w < |s| {
      assert s[w..][0] == s[w];
    }
  }

  lemma SnapNearby(s: Text, i: nat)
    requires Utf8(s) && i <= |s|
    ensures Snap(s, i) <= i < Snap(s, i) + Widest(s) && Boundary(s, Snap(s, i))
  {
    SnapIsBoundary(s, i);
    var b := BoundaryNearby(s, i);
  }

  lemma CutIsUtf8(s: Text, i: nat)
    requires Utf8(s) && i <= |s| && Boundary(s, i)
    ensures Utf8(s[..i]) && Utf8(s[i..])
  {
    FrontIsUtf8(s, i);
    BackIsUtf8(s, i);
  }

  lemma {:induction false} FrontIsUtf8(s: Text, i: nat)
    requires Utf8(s) && i <= |s| && Boundary(s, i)
    ensures Utf8(s[..i])
    decreases |s|
  {
    if i == 0 {
      assert s[..i] == [];
    } else if i == |s| {
      assert s[..i] == s;
    } else {
      BoundaryBehindFirst(s, i);
      FrontIsUtf8(s[Width(s[0])..], i - Width(s[0]));
      FirstOfCut(s, i);
    }
  }

  lemma {:induction false} BackIsUtf8(s: Text, i: nat)
    requires Utf8(s) && i <= |s| && Boundary(s, i)
    ensures Utf8(s[i..])
    decreases |s|
  {
    if i == 0 {
      assert s[i..] == s;
    } else if i == |s| {
      assert s[i..] == [];
    } else {
      BoundaryBehindFirst(s, i);
      BackIsUtf8(s[Width(s[0])..], i - Width(s[0]));
      BackOfBack(s, Width(s[0]), i);
    }
  }

  lemma BackOfBack(s: Text, w: nat, i: nat)
    requires w <= i <= |s| && Utf8(s[w..][i - w..])
    ensures Utf8(s[i..])
  {
    SliceOfSlice(s, w, i);
  }

  /** A boundary inside the text lies behind its first character. */
  lemma BoundaryBehindFirst(s: Text, i: nat)
    requires Utf8(s) && 0 < i < |s| && Boundary(s, i)
    ensures Width(s[0]) <= i && Width(s[0]) <= |s|
    ensures Boundary(s[Width(s[0])..], i - Width(s[0])) && Utf8(s[Width(s[0])..])
  {
    var w := Width(s[0]);
    assert forall k :: 1 <= k < w ==> Continuation(s[k]);
    assert s[w..][i - w] == s[i];
  }

  /** A cut behind the first character leaves that character whole. */
  lemma FirstOfCut(s: Text, i: nat)
    requires Utf8(s) && s != [] && Width(s[0]) <= i <= |s| && Utf8(s[Width(s[0])..][..i - Width(s[0])])
    ensures Utf8(s[..i])
  {
    SliceOfSlice(s, Width(s[0]), i);
    assert s[..i][0] == s[0];
    forall k | 1 <= k < Width(s[0]) ensures Continuation(s[..i][k]) {
      assert s[..i][k] == s[k];
    }
  }

  lemma SliceOfSlice<T>(s: seq<T>, a: nat, b: nat)
    requires a <= b <= |s|
    ensures s[..b][a..] == s[a..][..b - a] && s[b..] == s[a..][b - a..]
  {
    var left, right := s[..b][a..], s[a..][..b - a];
    assert |left| == |right| && forall k :: 0 <= k < |left| ==> left[k] == s[a + k] == right[k];
  }

  /** A piece between two boundaries is a text again. */
  lemma PieceIsUtf8(s: Text, a: nat, b: nat)
    requires Utf8(s) && a <= b <= |s| && Boundary(s, a) && Boundary(s, b)
    ensures Utf8(s[a..b])
  {
    CutIsUtf8(s, b);
    assert Boundary(s[..b], a);
    CutIsUtf8(s[..b], a);
    assert s[..b][a..] == s[a..b];
  }

  // ---- hard_split ----

  function EndFrom(s: Text, chunkSize: nat, start: nat): nat { Snap(s, Min(start + chunkSize, |s|)) }

  /** Where the loop continues after a chunk from start, if it does. */
  function NextStart(s: Text, chunkSize: nat, overlap: nat, start: nat): Option<nat> {
    var end := EndFrom(s, chunkSize, start);
    if end >= |s| then None else Some(Snap(s, Back(end, overlap)))
  }

  /** Sizes for which no text of sequences up to `width` bytes keeps the loop from moving on. */
  predicate Safe(width: nat, chunkSize: nat, overlap: nat) {
    chunkSize + 1 >= overlap + 2 * width || (overlap == 0 && chunkSize >= width)
  }

  predicate Progresses(s: Text, chunkSize: nat, overlap: nat, start: nat) {
    var next := NextStart(s, chunkSize, overlap, start);
    next.Some? ==> next.value > start
  }

  /** One turn of the loop ends its chunk here and, unless that is the end of the text, goes on there. */
  ghost predicate Turn(s: Text, chunkSize: nat, overlap: nat, start: nat, end: nat) {
    && start < end <= |s| && end - start <= chunkSize && Boundary(s, end)
    && (end < |s| ==> Overlaps(s, overlap, start, end, Snap(s, Back(end, overlap))))
  }

  predicate Overlaps(s: Text, overlap: nat, start: nat, end: nat, next: nat) {
    start < next && Boundary(s, next) && overlap <= end - next < overlap + Widest(s)
  }

  lemma SafeTurn(s: Text, chunkSize: nat, overlap: nat, start: nat)
    requires Utf8(s) && Boundary(s, start) && start < |s| && Safe(Widest(s), chunkSize, overlap)
    ensures Turn(s, chunkSize, overlap, start, EndFrom(s, chunkSize, start))
  {
    var w, at := Widest(s), Min(start + chunkSize, |s|);
    SnapNearby(s, at);
    var end := Snap(s, at);
    WholeTextSnaps(s);
    if end < |s| {
      NextOverlaps(s, overlap, start, end);
    }
  }

  lemma NextOverlaps(s: Text, overlap: nat, start: nat, end: nat)
    requires Utf8(s) && start < end < |s| && Boundary(s, end)
    requires overlap == 0 || end >= overlap + start + Widest(s)
    ensures Overlaps(s, overlap, start, end, Snap(s, Back(end, overlap)))
  {
    SnapNearby(s, Back(end, overlap));
  }

  lemma WholeTextSnaps(s: Text)
    ensures Snap(s, |s|) == |s|
  {
  }

  // ---- texts that stall ----

  /** One character of `width` bytes. */
  function Char(width: nat): (s: Text)
    requires 1 <= width <= 4
    ensures |s| == width
  {
    if width == 1 then [0x61] else if width == 2 then [0xC3, 0xA9] else if width == 3 then [0xE2, 0x82, 0xAC]
    else [0xF0, 0x9F, 0x98, 0x80]
  }

  function Ascii(n: nat): (s: Text)
    ensures |s| == n
  {
    seq(n, _ => 0x61)
  }

  lemma {:induction false} AsciiText(n: nat, rest: Text)
    requires Utf8(rest)
    ensures Utf8(Ascii(n) + rest) && Widest(Ascii(n) + rest) == Widest(rest)
  {
    if n == 0 {
      assert Ascii(0) + rest == rest;
    } else {
      AsciiText(n - 1, rest);
      AsciiMore(n, rest);
      OneMoreByte(Ascii(n - 1) + rest);
    }
  }

  lemma AsciiMore(n: nat, rest: Text)
    requires n > 0
    ensures Ascii(n) + rest == [0x61] + (Ascii(n - 1) + rest)
  {
  }

  lemma OneMoreByte(s: Text)
    requires Utf8(s)
    ensures Utf8([0x61] + s) && Widest([0x61] + s) == Widest(s)
  {
    assert ([0x61] + s)[1..] == s;
  }

  lemma CharText(width: nat, rest: Text)
    requires 1 <= width <= 4 && Utf8(rest)
    ensures Utf8(Char(width) + rest)
    ensures Widest(Char(width) + rest) == if width < Widest(rest) then Widest(rest) else width
  {
    assert (Char(width) + rest)[width..] == rest;
  }

  function Gap(width: nat, chunkSize: nat): nat {
    if chunkSize + 1 < 2 * width then 0 else chunkSize + 1 - 2 * width
  }

  /** Wide characters at the start and across the end of the first chunk, plain ones in between. */
  function StuckText(width: nat, chunkSize: nat): Text
    requires 1 <= width <= 4
  {
    Char(width) + (Ascii(Gap(width, chunkSize)) + Char(width))
  }

  lemma StuckIsText(width: nat, chunkSize: nat)
    requires 1 <= width <= 4
    ensures Utf8(StuckText(width, chunkSize)) && Widest(StuckText(width, chunkSize)) == width
  {
    CharText(width, []);
    assert Char(width) + [] == Char(width);
    AsciiText(Gap(width, chunkSize), Char(width));
    CharText(width, Ascii(Gap(width, chunkSize)) + Char(width));
  }

  lemma CharBytes(width: nat)
    requires 1 <= width <= 4
    ensures !Continuation(Char(width)[0]) && forall i :: 1 <= i < width ==> Continuation(Char(width)[i])
  {
  }

  /** A character inside a text: a boundary at its first byte and none at the others. */
  lemma CharInside(before: Text, c: Text, after: Text)
    requires c != [] && !Continuation(c[0]) && forall i :: 1 <= i < |c| ==> Continuation(c[i])
    ensures var s, at := before + (c + after), |before|;
      Boundary(s, at) && forall i :: at < i < at + |c| ==> !Boundary(s, i)
  {
    var s, at := before + (c + after), |before|;
    forall i | at <= i < at + |c| ensures s[i] == c[i - at] {
      assert (c + after)[i - at] == c[i - at];
    }
  }

  /** The stuck text, seen from its first and from its second wide character. */
  lemma StuckTwice(width: nat, chunkSize: nat)
    requires 1 <= width <= 4
    ensures var c, gap := Char(width), Ascii(Gap(width, chunkSize));
      && StuckText(width, chunkSize) == [] + (c + (gap + c)) == (c + gap) + (c + [])
      && |c + gap| == width + Gap(width, chunkSize)
  {
    Regroup(Char(width), Ascii(Gap(width, chunkSize)));
  }

  lemma Regroup(c: Text, gap: Text)
    ensures c + (gap + c) == [] + (c + (gap + c)) == (c + gap) + (c + [])
  {
  }

  lemma StuckBytes(width: nat, chunkSize: nat)
    requires 1 <= width <= 4
    ensures var s, second := StuckText(width, chunkSize), width + Gap(width, chunkSize);
      && |s| == second + width > chunkSize && Boundary(s, 0) && Boundary(s, second)
      && (forall i :: 0 < i < width ==> !Boundary(s, i))
      && (forall i :: second < i < second + width ==> !Boundary(s, i))
  {
    var c, gap := Char(width), Ascii(Gap(width, chunkSize));
    CharBytes(width);
    StuckTwice(width, chunkSize);
    CharInside([], c, gap + c);
    CharInside(c + gap, c, []);
  }

  lemma SnapInside(s: Text, i: nat, b: nat)
    requires b <= i && Boundary(s, b) && forall k :: b < k <= i ==> !Boundary(s, k)
    ensures Snap(s, i) == b
  {
    SnapIsBoundary(s, i);
    assert b < Snap(s, i) ==> !Boundary(s, Snap(s, i));
    assert Snap(s, i) < b ==> !Boundary(s, b);
  }

  lemma TextStalls(width: nat, chunkSize: nat, overlap: nat)
    requires 1 <= width <= 4 && !Safe(width, chunkSize, overlap)
    ensures NextStart(StuckText(width, chunkSize), chunkSize, overlap, 0) == Some(0)
  {
    var s, second := StuckText(width, chunkSize), width + Gap(width, chunkSize);
    StuckBytes(width, chunkSize);
    SnapInside(s, chunkSize, if chunkSize < width then 0 else second);
    SnapInside(s, Back(EndFrom(s, chunkSize, 0), overlap), 0);
  }

  /** For every width: the loop moves on, from every boundary of every text of such sequences, exactly
      for the safe sizes. At four bytes these are chunks at least seven longer than the overlap. */
  lemma ProgressIff(width: nat, chunkSize: nat, overlap: nat)
    requires 1 <= width <= 4
    ensures (forall s: Text, start: nat :: Utf8(s) && Widest(s) <= width && start < |s| && Boundary(s, start) ==>
              Progresses(s, chunkSize, overlap, start))
      <==> Safe(width, chunkSize, overlap)
  {
    if Safe(width, chunkSize, overlap) {
      forall s: Text, start: nat | Utf8(s) && Widest(s) <= width && start < |s| && Boundary(s, start)
        ensures Progresses(s, chunkSize, overlap, start)
      {
        SafeTurn(s, chunkSize, overlap, start);
      }
    } else {
      TextStalls(width, chunkSize, overlap);
      StuckIsText(width, chunkSize);
      assert !Progresses(StuckText(width, chunkSize), chunkSize, overlap, 0);
    }
  }

  // ---- when the loop ends ----

  /** The loop from start ends within n turns. */
  predicate Halts(s: Text, chunkSize: nat, overlap: nat, start: nat, n: nat)
    decreases n
  {
    && n > 0
    && var next := NextStart(s, chunkSize, overlap, start);
    && (next.Some? ==> Halts(s, chunkSize, overlap, next.value, n - 1))
  }

  ghost predicate Ends(s: Text, chunkSize: nat, overlap: nat) {
    exists n: nat :: Halts(s, chunkSize, overlap, 0, n)
  }

  /** Where turn k starts, if there is one. */
  function StartAt(s: Text, chunkSize: nat, overlap: nat, k: nat): Option<nat> {
    if k == 0 then Some(0)
    else
      var before := StartAt(s, chunkSize, overlap, k - 1);
      if before.None? then None else NextStart(s, chunkSize, overlap, before.value)
  }

  lemma SnapMonotone(s: Text, i: nat, j: nat)
    requires i <= j
    ensures Snap(s, i) <= Snap(s, j)
  {
    SnapIsBoundary(s, i);
    SnapIsBoundary(s, j);
    assert Snap(s, j) < Snap(s, i) ==> !Boundary(s, Snap(s, i));
  }

  lemma TurnMonotone(s: Text, chunkSize: nat, overlap: nat, x: nat, y: nat)
    requires x <= y
    ensures EndFrom(s, chunkSize, x) <= EndFrom(s, chunkSize, y)
    ensures NextStart(s, chunkSize, overlap, y).Some? ==>
      && NextStart(s, chunkSize, overlap, x).Some?
      && NextStart(s, chunkSize, overlap, x).value <= NextStart(s, chunkSize, overlap, y).value
  {
    SnapMonotone(s, Min(x + chunkSize, |s|), Min(y + chunkSize, |s|));
    SnapMonotone(s, Back(EndFrom(s, chunkSize, x), overlap), Back(EndFrom(s, chunkSize, y), overlap));
  }

  /** A turn that does not move on is followed by others that do not. */
  lemma {:induction false} StallsForEver(s: Text, chunkSize: nat, overlap: nat, start: nat, n: nat)
    requires !Progresses(s, chunkSize, overlap, start)
    ensures !Halts(s, chunkSize, overlap, start, n)
    decreases n
  {
    var next := NextStart(s, chunkSize, overlap, start).value;
    TurnMonotone(s, chunkSize, overlap, next, start);
    if n > 0 {
      StallsForEver(s, chunkSize, overlap, next, n - 1);
    }
  }

  lemma {:induction false} ReachedHalts(s: Text, chunkSize: nat, overlap: nat, k: nat, n: nat)
    requires Halts(s, chunkSize, overlap, 0, n) && StartAt(s, chunkSize, overlap, k).Some?
    ensures k < n && Halts(s, chunkSize, overlap, StartAt(s, chunkSize, overlap, k).value, n - k)
    decreases k
  {
    if k > 0 {
      ReachedHalts(s, chunkSize, overlap, k - 1, n);
    }
  }

  lemma {:induction false} ProgressHalts(s: Text, chunkSize: nat, overlap: nat, k: nat, x: nat) returns (n: nat)
    requires StartAt(s, chunkSize, overlap, k) == Some(x) && x <= |s|
    requires AllMoveOn(s, chunkSize, overlap)
    ensures Halts(s, chunkSize, overlap, x, n)
    decreases |s| - x
  {
    var next := NextStart(s, chunkSize, overlap, x);
    assert MovesOn(s, chunkSize, overlap, StartAt(s, chunkSize, overlap, k));
    if next.Some? {
      SnapIsBoundary(s, Back(EndFrom(s, chunkSize, x), overlap));
      n := ProgressHalts(s, chunkSize, overlap, k + 1, next.value);
      n := n + 1;
    } else {
      n := 1;
    }
  }

  ghost predicate AllMoveOn(s: Text, chunkSize: nat, overlap: nat) {
    forall k: nat :: MovesOn(s, chunkSize, overlap, StartAt(s, chunkSize, overlap, k))
  }

  predicate MovesOn(s: Text, chunkSize: nat, overlap: nat, start: Option<nat>) {
    start.Some? ==> Progresses(s, chunkSize, overlap, start.value)
  }

  /** The loop ends exactly when every turn it reaches moves on. */
  lemma EndsIff(s: Text, chunkSize: nat, overlap: nat)
    ensures Ends(s, chunkSize, overlap) <==> AllMoveOn(s, chunkSize, overlap)
  {
    if Ends(s, chunkSize, overlap) {
      var n: nat :| Halts(s, chunkSize, overlap, 0, n);
      forall k: nat ensures MovesOn(s, chunkSize, overlap, StartAt(s, chunkSize, overlap, k)) {
        ReachedMovesOn(s, chunkSize, overlap, k, n);
      }
    } else if AllMoveOn(s, chunkSize, overlap) {
      var n := ProgressHalts(s, chunkSize, overlap, 0, 0);
    }
  }

  lemma ReachedMovesOn(s: Text, chunkSize: nat, overlap: nat, k: nat, n: nat)
    requires Halts(s, chunkSize, overlap, 0, n)
    ensures MovesOn(s, chunkSize, overlap, StartAt(s, chunkSize, overlap, k))
  {
    var start := StartAt(s, chunkSize, overlap, k);
    if start.Some? {
      ReachedHalts(s, chunkSize, overlap, k, n);
      if !Progresses(s, chunkSize, overlap, start.value) {
        StallsForEver(s, chunkSize, overlap, start.value, n - k);
      }
    }
  }

  lemma {:induction false} SafeHalts(s: Text, chunkSize: nat, overlap: nat, start: nat) returns (n: nat)
    requires Utf8(s) && Boundary(s, start) && start < |s| && Safe(Widest(s), chunkSize, overlap)
    ensures Halts(s, chunkSize, overlap, start, n)
    decreases |s| - start
  {
    SafeTurn(s, chunkSize, overlap, start);
    n := 1;
    var next := NextStart(s, chunkSize, overlap, start);
    if next.Some? {
      n := SafeHalts(s, chunkSize, overlap, next.value);
      n := n + 1;
    }
  }

  /** With sizes that are safe for its widest character, the loop ends on every text. */
  lemma SafeEnds(s: Text, chunkSize: nat, overlap: nat)
    requires Utf8(s) && Safe(Widest(s), chunkSize, overlap)
    ensures Ends(s, chunkSize, overlap)
  {
    if s == [] {
      assert Halts(s, chunkSize, overlap, 0, 1);
    } else {
      var n := SafeHalts(s, chunkSize, overlap, 0);
    }
  }

  /** A turn of a loop that ends. */
  lemma HaltingTurn(s: Text, chunkSize: nat, overlap: nat, start: nat, n: nat)
    requires Utf8(s) && start < |s| && Halts(s, chunkSize, overlap, start, n)
    ensures Turn(s, chunkSize, overlap, start, EndFrom(s, chunkSize, start))
    ensures var next := NextStart(s, chunkSize, overlap, start);
      next.Some? ==> EndFrom(s, chunkSize, start) < EndFrom(s, chunkSize, next.value)
  {
    var end, next := EndFrom(s, chunkSize, start), NextStart(s, chunkSize, overlap, start);
    SnapIsBoundary(s, Min(start + chunkSize, |s|));
    if next.Some? {
      if !Progresses(s, chunkSize, overlap, start) {
        StallsForEver(s, chunkSize, overlap, start, n);
      }
      SnapNearby(s, Back(end, overlap));
      EndsLater(s, chunkSize, overlap, start, next.value, n);
    }
  }

  lemma EndsLater(s: Text, chunkSize: nat, overlap: nat, start: nat, next: nat, n: nat)
    requires start < next && NextStart(s, chunkSize, overlap, start) == Some(next)
    requires Halts(s, chunkSize, overlap, start, n)
    ensures EndFrom(s, chunkSize, start) < EndFrom(s, chunkSize, next)
  {
    TurnMonotone(s, chunkSize, overlap, start, next);
    if EndFrom(s, chunkSize, next) == EndFrom(s, chunkSize, start) {
      StallsForEver(s, chunkSize, overlap, next, n - 1);
    }
  }

  datatype Span = Span(from: nat, to: nat)

  /** Consecutive spans from the start of the text: nonempty, within size, at boundaries, each moving on
      and overlapping the one before by the overlap asked for and less than a character more. */
  ghost predicate Windows(s: Text, chunkSize: nat, overlap: nat, spans: seq<Span>) {
    && (spans != [] ==> spans[0].from == 0)
    && (forall i :: 0 <= i < |spans| ==>
          && spans[i].from < spans[i].to <= |s| && spans[i].to - spans[i].from <= chunkSize
          && Boundary(s, spans[i].from) && Boundary(s, spans[i].to))
    && (forall i :: 0 <= i < |spans| - 1 ==> Follows(s, overlap, spans[i], spans[i + 1]))
  }

  predicate Follows(s: Text, overlap: nat, a: Span, b: Span) {
    a.from < b.from && a.to < b.to && overlap <= a.to - b.from < overlap + Widest(s)
  }

  function Cut(s: Text, spans: seq<Span>): (chunks: seq<Text>)
    requires forall i :: 0 <= i < |spans| ==> spans[i].from <= spans[i].to <= |s|
    ensures |chunks| == |spans|
  {
    seq(|spans|, i requires 0 <= i < |spans| => s[spans[i].from..spans[i].to])
  }

  /** The loop goes on from start: behind the last span, with a chunk that will reach beyond it. */
  ghost predicate Continues(s: Text, chunkSize: nat, overlap: nat, spans: seq<Span>, start: nat) {
    && Windows(s, chunkSize, overlap, spans) && start <= |s| && Boundary(s, start)
    && if spans == [] then start == 0
       else start < |s| && Follows(s, overlap, spans[|spans| - 1], Span(start, EndFrom(s, chunkSize, start)))
  }

  lemma OneMoreWindow(s: Text, chunkSize: nat, overlap: nat, spans: seq<Span>, start: nat, n: nat)
    requires Continues(s, chunkSize, overlap, spans, start) && Utf8(s) && start < |s|
    requires Halts(s, chunkSize, overlap, start, n)
    ensures var end := EndFrom(s, chunkSize, start);
      && n > 0 && start < end <= |s| && Windows(s, chunkSize, overlap, spans + [Span(start, end)])
      && (end < |s| ==>
            var next := Snap(s, Back(end, overlap));
            && start < next && Halts(s, chunkSize, overlap, next, n - 1)
            && Continues(s, chunkSize, overlap, spans + [Span(start, end)], next))
  {
    HaltingTurn(s, chunkSize, overlap, start, n);
    WindowsGrow(s, chunkSize, overlap, spans, Span(start, EndFrom(s, chunkSize, start)));
  }

  lemma WindowsGrow(s: Text, chunkSize: nat, overlap: nat, spans: seq<Span>, span: Span)
    requires Windows(s, chunkSize, overlap, spans)
    requires span.from < span.to <= |s| && span.to - span.from <= chunkSize
    requires Boundary(s, span.from) && Boundary(s, span.to)
    requires if spans == [] then span.from == 0 else Follows(s, overlap, spans[|spans| - 1], span)
    ensures Windows(s, chunkSize, overlap, spans + [span])
  {
    var next := spans + [span];
    forall i | 0 <= i < |next| - 1 ensures Follows(s, overlap, next[i], next[i + 1]) {
      if i < |spans| - 1 {
        assert next[i] == spans[i] && next[i + 1] == spans[i + 1];
      }
    }
  }

  lemma CutMore(s: Text, spans: seq<Span>, a: nat, b: nat)
    requires a <= b <= |s| && forall i :: 0 <= i < |spans| ==> spans[i].from <= spans[i].to <= |s|
    ensures Cut(s, spans + [Span(a, b)]) == Cut(s, spans) + [s[a..b]]
  {
  }

  /** The last boundary up to a limit. */
  predicate LastBoundary(s: Text, limit: int, b: nat) {
    b <= limit && Boundary(s, b) && forall k :: b < k <= limit ==> !Boundary(s, k)
  }

  /** Every span is as long as the size lets it be, and the next one starts as far on as the overlap lets it. */
  ghost predicate Tight(s: Text, chunkSize: nat, overlap: nat, spans: seq<Span>) {
    && (forall i :: 0 <= i < |spans| ==> LastBoundary(s, Min(spans[i].from + chunkSize, |s|), spans[i].to))
    && (forall i :: 0 <= i < |spans| - 1 ==> LastBoundary(s, spans[i].to - overlap, spans[i + 1].from))
  }

  lemma SnapIsLast(s: Text, i: nat)
    ensures LastBoundary(s, i, Snap(s, i))
  {
    SnapIsBoundary(s, i);
  }

  /** The spans so far are tight, and so will be one that begins at start. */
  ghost predicate TightTo(s: Text, chunkSize: nat, overlap: nat, spans: seq<Span>, start: nat) {
    Tight(s, chunkSize, overlap, spans) && (spans != [] ==> LastBoundary(s, spans[|spans| - 1].to - overlap, start))
  }

  lemma OneMoreTight(s: Text, chunkSize: nat, overlap: nat, spans: seq<Span>, start: nat)
    requires TightTo(s, chunkSize, overlap, spans, start)
    ensures var end := EndFrom(s, chunkSize, start);
      && Tight(s, chunkSize, overlap, spans + [Span(start, end)])
      && (overlap <= end ==> TightTo(s, chunkSize, overlap, spans + [Span(start, end)], Snap(s, Back(end, overlap))))
  {
    var end := EndFrom(s, chunkSize, start);
    SnapIsLast(s, Min(start + chunkSize, |s|));
    SnapIsLast(s, Back(end, overlap));
    var next := spans + [Span(start, end)];
    forall i | 0 <= i < |next| - 1 ensures LastBoundary(s, next[i].to - overlap, next[i + 1].from) {
      if i < |spans| - 1 {
        assert next[i] == spans[i] && next[i + 1] == spans[i + 1];
      }
    }
  }

  /** There is only one such list of spans from the start of the text to its end. */
  lemma {:induction false} TightIsUnique(
    s: Text, chunkSize: nat, overlap: nat, spans: seq<Span>, spans': seq<Span>, i: nat)
    requires Windows(s, chunkSize, overlap, spans) && Windows(s, chunkSize, overlap, spans')
    requires Tight(s, chunkSize, overlap, spans) && Tight(s, chunkSize, overlap, spans')
    requires i < |spans| && i < |spans'|
    ensures spans[i] == spans'[i]
  {
    if i > 0 {
      TightIsUnique(s, chunkSize, overlap, spans, spans', i - 1);
      OnlyOneLast(s, spans[i - 1].to - overlap, spans[i].from, spans'[i].from);
    }
    OnlyOneLast(s, Min(spans[i].from + chunkSize, |s|), spans[i].to, spans'[i].to);
  }

  lemma OnlyOneLast(s: Text, limit: int, a: nat, b: nat)
    requires LastBoundary(s, limit, a) && LastBoundary(s, limit, b)
    ensures a == b
  {
  }

  /** `hard_split`, on every text on which its loop ends. */
  method HardSplit(s: Text, chunkSize: nat, overlap: nat) returns (chunks: seq<Text>, spans: seq<Span>)
    requires Utf8(s) && Ends(s, chunkSize, overlap)
    ensures Windows(s, chunkSize, overlap, spans) && Tight(s, chunkSize, overlap, spans) && chunks == Cut(s, spans)
    ensures if s == [] then spans == [] else spans != [] && spans[|spans| - 1].to == |s|
  {
    chunks, spans := [], [];
    var start: nat := 0;
    ghost var n: nat :| Halts(s, chunkSize, overlap, 0, n);
    while start < |s|
      invariant Continues(s, chunkSize, overlap, spans, start) && chunks == Cut(s, spans)
      invariant s == [] ==> spans == []
      invariant TightTo(s, chunkSize, overlap, spans, start)
      invariant Halts(s, chunkSize, overlap, start, n)
      decreases n
    {
      OneMoreTight(s, chunkSize, overlap, spans, start);
      OneMoreWindow(s, chunkSize, overlap, spans, start, n);
      var end := SnapToCharBoundary(s, Min(start + chunkSize, |s|));
      CutMore(s, spans, start, end);
      chunks, spans := chunks + [s[start..end]], spans + [Span(start, end)];
      if end >= |s| {
        return;
      }
      start := SnapToCharBoundary(s, Back(end, overlap));
      n := n - 1;
    }
  }

  /** The chunks are texts again, and together they miss no position. */
  lemma WindowsCover(s: Text, chunkSize: nat, overlap: nat, spans: seq<Span>, k: nat)
    requires Utf8(s) && Windows(s, chunkSize, overlap, spans) && spans != [] && spans[|spans| - 1].to == |s| && k < |s|
    ensures exists i :: 0 <= i < |spans| && spans[i].from <= k < spans[i].to && Utf8(s[spans[i].from..spans[i].to])
  {
    var i := 0;
    while spans[i].to <= k
      invariant i < |spans| && spans[i].from <= k
      decreases |spans| - i
    {
      i := i + 1;
    }
    PieceIsUtf8(s, spans[i].from, spans[i].to);
  }

  // ---- split_at_pattern ----

  function Prepend(piece: Text, rest: Option<seq<Text>>): Option<seq<Text>> {
    if rest.Some? then Some([piece] + rest.value) else None
  }

  /** Chunks from start on, given the positions where the pattern matches; None when a cut falls inside
      a character, where slicing panics. */
  function PiecesFrom(s: Text, matches: seq<nat>, chunkSize: nat, overlap: nat, start: nat): Option<seq<Text>>
    decreases |matches|
  {
    if matches == [] then
      if start >= |s| then Some([]) else if Boundary(s, start) then Some([s[start..]]) else None
    else if matches[0] <= start || matches[0] - start < chunkSize then
      PiecesFrom(s, matches[1..], chunkSize, overlap, start)
    else
      var end := Min(start + chunkSize, |s|);
      if start <= end && Boundary(s, start) && Boundary(s, end) then
        Prepend(s[start..end], PiecesFrom(s, matches[1..], chunkSize, overlap, Back(end, overlap)))
      else None
  }

  method SplitAtPattern(s: Text, matches: seq<nat>, chunkSize: nat, overlap: nat) returns (chunks: Option<seq<Text>>)
    requires forall i :: 0 <= i < |matches| ==> matches[i] <= |s|
    ensures chunks == if matches == [] then Some([]) else PiecesFrom(s, matches, chunkSize, overlap, 0)
  {
    if matches == [] {
      return Some([]);
    }
    var pieces: seq<Text> := [];
    var start: nat := 0;
    ghost var whole := PiecesFrom(s, matches, chunkSize, overlap, 0);
    assert matches[0..] == matches;
    PrependNothing(whole);
    for i := 0 to |matches|
      invariant whole == PrependAll(pieces, PiecesFrom(s, matches[i..], chunkSize, overlap, start))
    {
      assert matches[i..][1..] == matches[i + 1..];
      if matches[i] <= start || matches[i] - start < chunkSize {
        continue;
      }
      var end := Min(start + chunkSize, |s|);
      if start > end || !Boundary(s, start) || !Boundary(s, end) {
        return None;
      }
      PrependOne(pieces, s[start..end], PiecesFrom(s, matches[i + 1..], chunkSize, overlap, Back(end, overlap)));
      pieces := pieces + [s[start..end]];
      start := Back(end, overlap);
    }
    assert matches[|matches|..] == [];
    if start < |s| {
      if !Boundary(s, start) {
        return None;
      }
      pieces := pieces + [s[start..]];
    }
    assert pieces + [] == pieces;
    chunks := Some(pieces);
  }

  function PrependAll(pieces: seq<Text>, rest: Option<seq<Text>>): Option<seq<Text>> {
    if rest.Some? then Some(pieces + rest.value) else None
  }

  lemma PrependNothing(rest: Option<seq<Text>>)
    ensures PrependAll([], rest) == rest
  {
    if rest.Some? {
      assert [] + rest.value == rest.value;
    }
  }

  lemma PrependOne(pieces: seq<Text>, piece: Text, rest: Option<seq<Text>>)
    ensures PrependAll(pieces, Prepend(piece, rest)) == PrependAll(pieces + [piece], rest)
  {
    if rest.Some? {
      assert pieces + ([piece] + rest.value) == pieces + [piece] + rest.value;
    }
  }

  /** Chunks put together again without the overlaps. */
  function Glue(chunks: seq<Text>, overlap: nat): Text
  {
    if chunks == [] then []
    else
      var rest := Glue(chunks[1..], overlap);
      chunks[0] + if overlap <= |rest| then rest[overlap..] else []
  }

  lemma GlueOne(s: Text, start: nat, end: nat, overlap: nat, rest: seq<Text>)
    requires start <= end <= |s| && overlap <= end && Glue(rest, overlap) == s[end - overlap..]
    ensures Glue([s[start..end]] + rest, overlap) == s[start..]
  {
    assert ([s[start..end]] + rest)[1..] == rest;
    assert s[end - overlap..][overlap..] == s[end..];
    assert s[start..end] + s[end..] == s[start..];
  }

  lemma GlueLast(piece: Text, overlap: nat)
    ensures Glue([piece], overlap) == piece && Glue([], overlap) == []
  {
    assert [piece][1..] == [];
  }

  lemma LastPiece(s: Text, matches: seq<nat>, chunkSize: nat, overlap: nat, start: nat)
    requires matches == [] && start <= |s| && PiecesFrom(s, matches, chunkSize, overlap, start).Some?
    ensures Glue(PiecesFrom(s, matches, chunkSize, overlap, start).value, overlap) == s[start..]
  {
    GlueLast(s[start..], overlap);
  }

  /** Whatever the matches, if no cut falls inside a character the chunks give back the text. */
  lemma {:induction false} PiecesGlue(s: Text, matches: seq<nat>, chunkSize: nat, overlap: nat, start: nat)
    requires overlap <= chunkSize && start <= |s|
    requires forall i :: 0 <= i < |matches| ==> matches[i] <= |s|
    requires PiecesFrom(s, matches, chunkSize, overlap, start).Some?
    ensures Glue(PiecesFrom(s, matches, chunkSize, overlap, start).value, overlap) == s[start..]
    decreases |matches|
  {
    if matches == [] {
      LastPiece(s, matches, chunkSize, overlap, start);
    } else if matches[0] <= start || matches[0] - start < chunkSize {
      TooNear(s, matches, chunkSize, overlap, start);
      PiecesGlue(s, matches[1..], chunkSize, overlap, start);
    } else {
      var rest := FirstPiece(s, matches, chunkSize, overlap, start);
      PiecesGlue(s, matches[1..], chunkSize, overlap, start + chunkSize - overlap);
      GlueOne(s, start, start + chunkSize, overlap, rest);
    }
  }

  /** A match too near to the start of the chunk is passed over. */
  lemma TooNear(s: Text, matches: seq<nat>, chunkSize: nat, overlap: nat, start: nat)
    requires matches != [] && (matches[0] <= start || matches[0] - start < chunkSize)
    ensures PiecesFrom(s, matches, chunkSize, overlap, start) == PiecesFrom(s, matches[1..], chunkSize, overlap, start)
  {
  }

  /** A match far enough ahead gives the first chunk, and the others start again before its end. */
  lemma FirstPiece(s: Text, matches: seq<nat>, chunkSize: nat, overlap: nat, start: nat) returns (rest: seq<Text>)
    requires overlap <= chunkSize && matches != [] && start < matches[0] <= |s| && matches[0] - start >= chunkSize
    requires PiecesFrom(s, matches, chunkSize, overlap, start).Some?
    ensures PiecesFrom(s, matches[1..], chunkSize, overlap, start + chunkSize - overlap) == Some(rest)
    ensures PiecesFrom(s, matches, chunkSize, overlap, start) == Some([s[start..start + chunkSize]] + rest)
  {
    rest := PiecesFrom(s, matches[1..], chunkSize, overlap, start + chunkSize - overlap).value;
  }

  /** Plain ASCII is never cut inside a character. */
  lemma {:induction false} AsciiNeverPanics(s: Text, matches: seq<nat>, chunkSize: nat, overlap: nat, start: nat)
    requires forall i :: 0 <= i < |s| ==> s[i] < 0x80
    requires forall i :: 0 <= i < |matches| ==> matches[i] <= |s|
    requires start <= |s|
    ensures PiecesFrom(s, matches, chunkSize, overlap, start).Some?
    decreases |matches|
  {
    if matches != [] {
      if matches[0] <= start || matches[0] - start < chunkSize {
        AsciiNeverPanics(s, matches[1..], chunkSize, overlap, start);
      } else {
        AsciiNeverPanics(s, matches[1..], chunkSize, overlap, Back(start + chunkSize, overlap));
      }
    }
  }
}
