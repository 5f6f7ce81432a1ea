/** The layer range that a worker reads off its model directory's name (client/node/src/ws_worker.rs). */
module LayerPath {
  import opened Wrappers

  const USIZE := 0x1_0000_0000_0000_0000
  const LAYERS := 28

  // ---- formatting ----

  function Digit(d: nat): char
    requires d < 10
  {
    '0' + d as char
  }

  function Decimal(n: nat): string {
    if n < 10 then [Digit(n)] else Decimal(n / 10) + [Digit(n % 10)]
  }

  /** `inference_layers_{ls}_{le}` under a directory. */
  function PathFor(dir: string, ls: nat, le: nat): string {
    dir + "/" + RangeName(Decimal(ls), Decimal(le))
  }

  function RangeName(ls: string, le: string): string { "inference_layers_" + ls + "_" + le }

  // ---- parsing ----

  predicate IsDigit(c: char) { '0' <= c <= '9' }

  function Value(s: string): Option<nat> {
    if s == "" then Some(0)
    else
      var high, c := Value(s[..|s| - 1]), s[|s| - 1];
      if high.None? || !IsDigit(c) then None else Some(10 * high.value + (c - '0') as nat)
  }

  /** Parsing into a 64-bit usize: digits after an optional plus sign. */
  function ParseUsize(s: string): Option<nat> {
    var digits := if s != "" && s[0] == '+' then s[1..] else s;
    var v := Value(digits);
    if digits != "" && v.Some? && v.value < USIZE then v else None
  }

  function OrElse(n: Option<nat>, other: nat): nat { if n.Some? then n.value else other }

  /** What follows the last slash. */
  function LastName(path: string): string {
    if path == "" || path[|path| - 1] == '/' then ""
    else LastName(path[..|path| - 1]) + [path[|path| - 1]]
  }

  function Split(s: string): (parts: seq<string>)
    ensures parts != []
  {
    if s == "" then [""]
    else
      var parts, c := Split(s[..|s| - 1]), s[|s| - 1];
      if c == '_' then parts + [""]
      else parts[|parts| - 1 := parts[|parts| - 1] + [c]]
  }

  /** `parse_layer_range`: all the layers if the name has fewer than four parts. */
  function ParseLayerRange(path: string): (nat, nat) {
    var parts := Split(LastName(path));
    if |parts| >= 4 then
      (OrElse(ParseUsize(parts[|parts| - 2]), 0), OrElse(ParseUsize(parts[|parts| - 1]), LAYERS))
    else (0, LAYERS)
  }

  // ---- round trip ----

  predicate Plain(s: string) { forall i :: 0 <= i < |s| ==> s[i] != '/' && s[i] != '_' && s[i] != '+' }

  predicate NoSlash(s: string) { forall i :: 0 <= i < |s| ==> s[i] != '/' }

  lemma {:induction false} DecimalRoundTrip(n: nat)
    ensures Decimal(n) != "" && Plain(Decimal(n)) && Value(Decimal(n)) == Some(n)
  {
    if n < 10 {
      assert Decimal(n)[..0] == "";
    } else {
      DecimalRoundTrip(n / 10);
      assert Decimal(n)[..|Decimal(n)| - 1] == Decimal(n / 10);
    }
  }

  lemma {:induction false} NameAfterSlash(dir: string, name: string)
    requires NoSlash(name)
    ensures LastName(dir + "/" + name) == name
  {
    var path := dir + "/" + name;
    if name != "" {
      NameAfterSlash(dir, name[..|name| - 1]);
      assert path[..|path| - 1] == dir + "/" + name[..|name| - 1];
    }
  }

  /** Splitting off a last part. */
  lemma {:induction false} SplitLast(s: string, part: string)
    requires Plain(part)
    ensures Split(s + "_" + part) == Split(s) + [part]
  {
    var whole := s + "_" + part;
    if part == "" {
      assert whole[..|whole| - 1] == s;
    } else {
      var shorter := part[..|part| - 1];
      SplitLast(s, shorter);
      assert whole[..|whole| - 1] == s + "_" + shorter;
      assert part == shorter + [part[|part| - 1]];
    }
  }

  lemma {:induction false} SplitPlain(s: string)
    requires Plain(s)
    ensures Split(s) == [s]
  {
    if s != "" {
      SplitPlain(s[..|s| - 1]);
      assert s == s[..|s| - 1] + [s[|s| - 1]];
    }
  }

  lemma SplitName(a: string, b: string)
    requires Plain(a) && Plain(b)
    ensures Split(RangeName(a, b)) == ["inference", "layers", a, b]
  {
    SplitPlain("inference");
    SplitLast("inference", "layers");
    SplitLast("inference" + "_" + "layers", a);
    SplitLast("inference" + "_" + "layers" + "_" + a, b);
    NameParts(a, b);
  }

  lemma NameParts(a: string, b: string)
    ensures RangeName(a, b) == "inference" + "_" + "layers" + "_" + a + "_" + b
  {
    assert "inference_layers_" == "inference" + "_" + "layers" + "_";
  }

  /** Under any directory the formatted range is read back, so worker and coordinator agree on which
      hop is the last. */
  lemma LayerRangeRoundTrip(dir: string, ls: nat, le: nat)
    requires ls < USIZE && le < USIZE
    ensures ParseLayerRange(PathFor(dir, ls, le)) == (ls, le)
  {
    var a, b := Decimal(ls), Decimal(le);
    DecimalRoundTrip(ls);
    DecimalRoundTrip(le);
    SlashFree(a, b);
    NameAfterSlash(dir, RangeName(a, b));
    SplitName(a, b);
    PlainParses(a, ls);
    PlainParses(b, le);
  }

  lemma SlashFree(a: string, b: string)
    requires Plain(a) && Plain(b)
    ensures NoSlash(RangeName(a, b))
  {
    assert NoSlash("inference_layers_");
  }

  lemma PlainParses(s: string, n: nat)
    requires s != "" && Plain(s) && Value(s) == Some(n) && n < USIZE
    ensures ParseUsize(s) == Some(n)
  {
  }
}
