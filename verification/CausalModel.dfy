/** One decoder-only transformer, evaluated on a single machine in one causal pass.
    Tensor arithmetic is abstract: a layer is a pair of functions, one that turns the hidden
    value of a position into the entry its cache stores, and one that combines a hidden value
    with the entries its mask row leaves visible. */
module CausalModel {
  import opened Picks

  datatype LayerKind = Full | Sliding(window: nat)

  datatype Model<!H, !K> = Model(
    kind: nat -> LayerKind,              // layer index
    project: (nat, nat, H) -> K,         // layer, position, hidden value
    attend: (nat, nat, H, seq<K>) -> H,  // layer, position, hidden value, visible entries
    norm: H -> H)

  /** The entries of the columns that a mask row keeps, in column order. */
  function Visible<K>(ks: seq<K>, row: nat -> bool): seq<K> {
    if |ks| == 0 then []
    else
      var last := |ks| - 1;
      Visible(ks[..last], row) + if row(last) then [ks[last]] else []
  }

  /** What position p may look at: itself and earlier positions, inside the window if there is one. */
  function CausalRow(kind: LayerKind, p: nat): nat -> bool {
    j => j <= p && (kind.Full? || p - j < kind.window)
  }

  function Keys<H, K>(m: Model<H, K>, l: nat, xs: seq<H>): (ks: seq<K>)
    ensures |ks| == |xs|
  {
    seq(|xs|, j requires 0 <= j < |xs| => m.project(l, j, xs[j]))
  }

  function CausalLayer<H, K>(m: Model<H, K>, l: nat, xs: seq<H>): (ys: seq<H>)
    ensures |ys| == |xs|
  {
    seq(|xs|, p requires 0 <= p < |xs| =>
      m.attend(l, p, xs[p], Visible(Keys(m, l, xs), CausalRow(m.kind(l), p))))
  }

  /** Hidden values entering layer l, or leaving the model when l is the number of layers. */
  function Hidden<H, K>(m: Model<H, K>, l: nat, xs: seq<H>): (ys: seq<H>)
    ensures |ys| == |xs|
  {
    if l == 0 then xs else CausalLayer(m, l - 1, Hidden(m, l - 1, xs))
  }

  /** Just the entries of the columns that the row keeps, in column order. */
  lemma {:induction false} VisibleIs<K>(ks: seq<K>, row: nat -> bool)
    ensures IsPick(ks, Visible(ks, row), Shown(|ks|, row))
  {
    if |ks| == 0 {
      NothingPicked(ks, Visible(ks, row), Shown(|ks|, row));
    } else {
      var last := |ks| - 1;
      VisibleIs(ks[..last], row);
      LastPicked(ks, Visible(ks, row), Shown(|ks|, row), Visible(ks[..last], row), Shown(last, row), row(last));
    }
  }

  function Shown(n: nat, row: nat -> bool): set<nat> { set j: nat | j < n && row(j) }

  lemma {:induction false} VisibleAgree<K>(ks: seq<K>, row: nat -> bool, row': nat -> bool)
    requires forall j: nat :: j < |ks| ==> row(j) == row'(j)
    ensures Visible(ks, row) == Visible(ks, row')
  {
    if |ks| > 0 {
      VisibleAgree(ks[..|ks| - 1], row, row');
    }
  }

  /** Columns that a row hides anyway can be cut off. */
  lemma {:induction false} VisibleCut<K>(ks: seq<K>, n: nat, row: nat -> bool)
    requires n <= |ks|
    requires forall j: nat :: n <= j < |ks| ==> !row(j)
    ensures Visible(ks, row) == Visible(ks[..n], row)
    decreases |ks|
  {
    if n == |ks| {
      assert ks[..n] == ks;
    } else {
      VisibleCut(ks[..|ks| - 1], n, row);
      assert ks[..|ks| - 1][..n] == ks[..n];
    }
  }

  /** Causality: a layer's values at the first n positions do not depend on later positions. */
  lemma {:induction false} LayerCausal<H, K>(m: Model<H, K>, l: nat, xs: seq<H>, n: nat)
    requires n <= |xs|
    ensures Keys(m, l, xs)[..n] == Keys(m, l, xs[..n])
    ensures CausalLayer(m, l, xs)[..n] == CausalLayer(m, l, xs[..n])
  {
    var ks, ks' := Keys(m, l, xs), Keys(m, l, xs[..n]);
    assert ks[..n] == ks';
    forall p: nat | p < n
      ensures CausalLayer(m, l, xs)[p] == CausalLayer(m, l, xs[..n])[p]
    {
      VisibleCut(ks, n, CausalRow(m.kind(l), p));
    }
  }

  lemma {:induction false} HiddenCausal<H, K>(m: Model<H, K>, l: nat, xs: seq<H>, n: nat)
    requires n <= |xs|
    ensures Hidden(m, l, xs)[..n] == Hidden(m, l, xs[..n])
  {
    if l > 0 {
      HiddenCausal(m, l - 1, xs, n);
      LayerCausal(m, l - 1, Hidden(m, l - 1, xs), n);
    }
  }
}
