/**
  Runs do not interleave: when several clients each type a run of text into the same gap,
  every replica shows the runs one after the other, in the order of the clients.
 */
module Interleaving {
  import opened Ids
  import opened Seqs
  import opened Yata
  import opened Spans
  import opened Convergence
  import opened BlockIntegration

  /** A client that types forward, starting at this clock. */
  datatype Typist = Typist(client: nat, clock: nat)

  /** The gap: the neighbours that every first keystroke names. */
  datatype Gap = Gap(left: Option<ID>, right: Option<ID>)

  function Typed(t: Typist, n: nat, g: Gap): Span {
    Span(ID(t.client, t.clock), n, g.left, g.right)
  }

  /** The n-th keystroke of `t`: the first one follows the gap's left end, each other the one before. */
  function Keystroke(t: Typist, n: nat, g: Gap): Unit {
    Typed(t, n + 1, g).UnitAt(n)
  }

  predicate Ascending(ts: seq<Typist>) {
    forall i, j :: 0 <= i < j < |ts| ==> ts[i].client < ts[j].client
  }

  /** The first `counts[i]` keystrokes of each typist, in client order. */
  function Fill(ts: seq<Typist>, counts: seq<nat>, g: Gap): seq<Span>
    requires |ts| == |counts|
  {
    if ts == [] then []
    else (if counts[0] > 0 then [Typed(ts[0], counts[0], g)] else []) + Fill(ts[1..], counts[1..], g)
  }

  function Layout(pre: seq<Span>, ts: seq<Typist>, counts: seq<nat>, post: seq<Span>, g: Gap): seq<Span>
    requires |ts| == |counts|
  {
    pre + Fill(ts, counts, g) + post
  }

  /** The gap between `pre` and `post`. */
  predicate IsGap(pre: seq<Span>, post: seq<Span>, g: Gap) {
    && NonEmpty(pre) && NonEmpty(post)
    && g.left == (if pre == [] then None else Some(pre[|pre| - 1].LastId()))
    && g.right == (if post == [] then None else Some(post[0].id))
  }

  // ----- the shape of a filled gap

  predicate InGap(bs: seq<Span>, g: Gap) {
    forall j :: 0 <= j < |bs| ==> bs[j].len > 0 && bs[j].origin == g.left && bs[j].rightOrigin == g.right
  }

  predicate ClientsBelow(bs: seq<Span>, c: nat) {
    forall j :: 0 <= j < |bs| ==> bs[j].id.client < c
  }

  predicate ClientsAbove(bs: seq<Span>, c: nat) {
    forall j :: 0 <= j < |bs| ==> c < bs[j].id.client
  }

  lemma {:induction false} FillBlocks(ts: seq<Typist>, counts: seq<nat>, g: Gap, c: nat)
    requires |ts| == |counts|
    ensures InGap(Fill(ts, counts, g), g)
    ensures (forall i :: 0 <= i < |ts| ==> ts[i].client < c) ==> ClientsBelow(Fill(ts, counts, g), c)
    ensures (forall i :: 0 <= i < |ts| ==> c < ts[i].client) ==> ClientsAbove(Fill(ts, counts, g), c)
  {
    if ts != [] { FillBlocks(ts[1..], counts[1..], g, c); }
  }

  function Own(t: Typist, n: nat, g: Gap): seq<Span> {
    if n > 0 then [Typed(t, n, g)] else []
  }

  /** What stands before and after the blocks of typist `i`. */
  lemma {:induction false} FillAt(ts: seq<Typist>, counts: seq<nat>, g: Gap, i: nat)
    requires |ts| == |counts| && i < |ts|
    ensures Fill(ts, counts, g) ==
      Fill(ts[..i], counts[..i], g) + (Own(ts[i], counts[i], g) + Fill(ts[i + 1..], counts[i + 1..], g))
  {
    if i > 0 {
      FillAt(ts[1..], counts[1..], g, i - 1);
      assert ts[1..][..i - 1] == ts[..i][1..] && counts[1..][..i - 1] == counts[..i][1..];
      assert ts[1..][i..] == ts[i + 1..] && counts[1..][i..] == counts[i + 1..];
      Assoc(Own(ts[0], counts[0], g), Fill(ts[..i][1..], counts[..i][1..], g),
        Own(ts[i], counts[i], g) + Fill(ts[i + 1..], counts[i + 1..], g));
    }
  }

  // ----- where the next keystroke goes

  lemma LeftBlockIs(bs: seq<Span>, x: Span, m: nat)
    requires NonEmpty(bs) && Distinct(Expand(bs)) && m <= |bs|
    requires x.origin == if m == 0 then None else Some(bs[m - 1].LastId())
    ensures LeftBlock(bs, x) == m - 1
    ensures x.origin.Some? ==> EndsBlock(bs, x.origin.value)
  {
    if m > 0 { BlockOfLast(bs, m - 1); }
  }

  lemma {:induction false} PastSmaller(bs: seq<Span>, x: Span, lo: int, j: int, n: int)
    requires -1 <= lo < j <= n <= |bs|
    requires forall k :: j <= k < n ==>
      bs[k].origin == x.origin && bs[k].id.client < x.id.client && x.rightOrigin != Some(bs[k].id)
    ensures BlockScan(bs, x, lo, j - 1, j) == BlockScan(bs, x, lo, n - 1, n)
    decreases n - j
  {
    if j < n { PastSmaller(bs, x, lo, j + 1, n); }
  }

  /** A block at which the scan stops: the end of the gap, or a run of a client that is not smaller. */
  predicate EndsSmaller(b: Span, x: Span) {
    || x.rightOrigin == Some(b.id)
    || (b.origin == x.origin && x.id.client <= b.id.client && b.rightOrigin == x.rightOrigin)
  }

  /** A first keystroke goes after the runs of smaller clients, and before the others. */
  lemma FirstPlace(bs: seq<Span>, x: Span, m: nat, n: nat)
    requires NonEmpty(bs) && Distinct(Expand(bs)) && m <= n <= |bs|
    requires x.origin == if m == 0 then None else Some(bs[m - 1].LastId())
    requires forall k :: m <= k < n ==>
      bs[k].origin == x.origin && bs[k].id.client < x.id.client && x.rightOrigin != Some(bs[k].id)
    requires n < |bs| ==> EndsSmaller(bs[n], x)
    ensures BlockPlace(bs, x) == n - 1
  {
    hide Expand;
    LeftBlockIs(bs, x, m);
    PastSmaller(bs, x, m - 1, m, n);
  }

  /** Any other keystroke goes right after the one before it. */
  lemma {:induction false} LaterPlace(bs: seq<Span>, x: Span, q: nat, m: nat)
    requires NonEmpty(bs) && Distinct(Expand(bs)) && m <= q < |bs|
    requires x.origin == Some(bs[q].LastId())
    requires q + 1 < |bs| && x.rightOrigin != Some(bs[q + 1].id) ==>
               bs[q + 1].origin == if m == 0 then None else Some(bs[m - 1].LastId())
    ensures BlockPlace(bs, x) == q
  {
    hide Expand;
    LeftBlockIs(bs, x, q + 1);
    if q + 1 < |bs| && x.rightOrigin != Some(bs[q + 1].id) {
      LeftBlockIs(bs, bs[q + 1], m);
      BlockOfLast(bs, q);
    }
  }

  /** No block but the first of `post` starts at the right end of the gap. */
  lemma OnlyPostStarts(bs: seq<Span>, k: nat, n: nat)
    requires NonEmpty(bs) && Distinct(Expand(bs)) && k < n < |bs|
    ensures bs[k].id != bs[n].id
  {
    hide Expand;
    ExpandAt(bs, k, 0);
    ExpandAt(bs, n, 0);
    OffRises(bs, k, n);
  }

  // ----- one keystroke

  /** The pieces of a layout around typist `i`. */
  lemma LayoutAt(pre: seq<Span>, ts: seq<Typist>, counts: seq<nat>, post: seq<Span>, g: Gap, i: nat)
    returns (a: seq<Span>, b: seq<Span>)
    requires |ts| == |counts| && i < |ts| && Ascending(ts)
    ensures InGap(a, g) && ClientsBelow(a, ts[i].client) && InGap(b, g) && ClientsAbove(b, ts[i].client)
    ensures forall n: nat ::
              Layout(pre, ts, counts[i := n], post, g) == pre + a + Own(ts[i], n, g) + b + post
  {
    a := Fill(ts[..i], counts[..i], g);
    b := Fill(ts[i + 1..], counts[i + 1..], g);
    FillBlocks(ts[..i], counts[..i], g, ts[i].client);
    FillBlocks(ts[i + 1..], counts[i + 1..], g, ts[i].client);
    forall n: nat
      ensures Layout(pre, ts, counts[i := n], post, g) == pre + a + Own(ts[i], n, g) + b + post
    {
      var c := counts[i := n];
      FillAt(ts, c, g, i);
      assert c[..i] == counts[..i] && c[i + 1..] == counts[i + 1..];
      hide Fill;
      Assoc(pre, a, Own(ts[i], n, g) + b);
      Assoc(pre + a, Own(ts[i], n, g), b);
    }
  }

  lemma Pieces(pre: seq<Span>, a: seq<Span>, b: seq<Span>, post: seq<Span>)
    ensures var bs, n := pre + a + b + post, |pre| + |a|; bs[..n] == pre + a && bs[n..] == b + post
    ensures pre != [] ==> (pre + a + b + post)[|pre| - 1] == pre[|pre| - 1]
    ensures post != [] ==> (pre + a + b + post)[|pre| + |a| + |b|] == post[0]
  {
  }

  lemma FirstKeystroke(pre: seq<Span>, a: seq<Span>, b: seq<Span>, post: seq<Span>, g: Gap, x: Span)
    requires IsGap(pre, post, g) && InGap(a, g) && InGap(b, g) && x.len > 0
    requires ClientsBelow(a, x.id.client) && ClientsAbove(b, x.id.client)
    requires x.origin == g.left && x.rightOrigin == g.right
    requires Distinct(Expand(pre + a + b + post))
    ensures NonEmpty(pre + a + b + post) && Aligned(pre + a + b + post, x)
    ensures BlockIntegrate(pre + a + b + post, x) == pre + a + [x] + b + post
  {
    hide Expand, BlockPlace;
    var bs, m, n, e := pre + a + b + post, |pre|, |pre| + |a|, |pre| + |a| + |b|;
    forall k | m <= k < n ensures x.rightOrigin != Some(bs[k].id) {
      if post != [] { OnlyPostStarts(bs, k, e); }
    }
    FirstPlace(bs, x, m, n);
    Pieces(pre, a, b, post);
    if m > 0 { assert bs[m - 1].LastId() == x.origin.value; }
    if post != [] { assert bs[e].id == x.rightOrigin.value; }
    Assoc(pre + a + [x], b, post);
  }

  lemma LaterKeystroke(pre: seq<Span>, a: seq<Span>, b: seq<Span>, post: seq<Span>, g: Gap, t: Typist, n: nat)
    requires IsGap(pre, post, g) && InGap(a, g) && InGap(b, g) && n > 0
    requires Distinct(Expand(pre + a + [Typed(t, n, g)] + b + post))
    ensures var bs, x := pre + a + [Typed(t, n, g)] + b + post, CutRight(Typed(t, n + 1, g), n);
      && NonEmpty(bs) && Aligned(bs, x)
      && Expand(BlockIntegrate(bs, x)) == Expand(pre + a + [Typed(t, n + 1, g)] + b + post)
  {
    hide Expand, BlockPlace;
    var bs, x, q, e := pre + a + [Typed(t, n, g)] + b + post, CutRight(Typed(t, n + 1, g), n),
      |pre| + |a|, |pre| + |a| + 1 + |b|;
    var all := pre + a + [Typed(t, n + 1, g)] + b + post;
    assert bs[q] == Typed(t, n, g) && bs[q].LastId() == x.origin.value;
    if post != [] { assert bs[e].id == x.rightOrigin.value; }
    if |pre| > 0 { assert bs[|pre| - 1] == pre[|pre| - 1]; }
    LaterPlace(bs, x, q, |pre|);
    assert all[q] == Typed(t, n + 1, g) && CutLeft(all[q], n) == Typed(t, n, g);
    CutKeepsUnits(all, q, n);
    assert all[..q] == pre + a == bs[..q] && all[q + 1..] == b + post == bs[q + 1..];
    assert bs[..q + 1] == bs[..q] + [Typed(t, n, g)];
    assert PutAfter(bs, q, x) == Cut(all, q, n);
  }

  /** One more keystroke, on a list that satisfies the invariant. */
  lemma KeystrokeFills(pre: seq<Span>, ts: seq<Typist>, counts: seq<nat>, post: seq<Span>, g: Gap, i: nat)
    requires IsGap(pre, post, g) && Ascending(ts) && |ts| == |counts| && i < |ts|
    requires Inv(Expand(Layout(pre, ts, counts, post, g)))
    requires Find(Expand(Layout(pre, ts, counts, post, g)), ID(ts[i].client, ts[i].clock + counts[i])) < 0
    ensures Integrate(Expand(Layout(pre, ts, counts, post, g)), Keystroke(ts[i], counts[i], g)) ==
            Expand(Layout(pre, ts, counts[i := counts[i] + 1], post, g))
  {
    hide Expand, Layout, BlockIntegrate, Integrate;
    var a, b := LayoutAt(pre, ts, counts, post, g, i);
    var t, n := ts[i], counts[i];
    assert counts[i := n] == counts;
    var bs := pre + a + Own(t, n, g) + b + post;
    var x := if n == 0 then Typed(t, 1, g) else CutRight(Typed(t, n + 1, g), n);
    if n == 0 {
      assert pre + a + Own(t, 0, g) == pre + a;
      FirstKeystroke(pre, a, b, post, g, x);
    } else {
      LaterKeystroke(pre, a, b, post, g, t, n);
    }
    assert Own(t, n + 1, g) == [Typed(t, n + 1, g)];
    assert x.IdAt(0) == ID(t.client, t.clock + n);
    BlockIsUnits(bs, x);
    assert Units(x)[0] == Keystroke(t, n, g) && Units(x)[1..] == [];
    IntegrateFirst(Expand(bs), Units(x));
    IntegrateNone(Integrate(Expand(bs), Units(x)[0]));
  }

  // ----- any number of keystrokes, in any order of delivery

  /** How many keystrokes of each typist have been delivered; `d` names the typists in turn. */
  function Counts(m: nat, d: seq<nat>): (c: seq<nat>)
    ensures |c| == m
  {
    if d == [] then seq(m, _ => 0)
    else
      var c := Counts(m, d[..|d| - 1]);
      var i := d[|d| - 1];
      if i < m then c[i := c[i] + 1] else c
  }

  /** `ops` are the next keystrokes of the typists that `d` names. */
  ghost predicate Deliveries(ts: seq<Typist>, d: seq<nat>, ops: seq<Op>, g: Gap) {
    && |d| == |ops|
    && forall k :: 0 <= k < |d| ==>
      d[k] < |ts| && ops[k].unit == Keystroke(ts[d[k]], Counts(|ts|, d[..k])[d[k]], g)
  }

  lemma {:induction false} FillNone(ts: seq<Typist>, g: Gap, counts: seq<nat>)
    requires |ts| == |counts| && forall i :: 0 <= i < |ts| ==> counts[i] == 0
    ensures Fill(ts, counts, g) == []
  {
    if ts != [] { FillNone(ts[1..], g, counts[1..]); }
  }

  lemma KeystrokeId(t: Typist, n: nat, g: Gap)
    ensures Keystroke(t, n, g).id == ID(t.client, t.clock + n)
  {
  }

  lemma NextDelivery(w: set<Op>, had: seq<Op>, op: Op, pre: seq<Span>, post: seq<Span>,
      ts: seq<Typist>, counts: seq<nat>, g: Gap, i: nat)
    requires World(w) && From(w, had + [op]) && Deliverable(had + [op])
    requires IsGap(pre, post, g) && Ascending(ts) && |ts| == |counts| && i < |ts|
    requires Run(had) == Expand(Layout(pre, ts, counts, post, g))
    requires op.unit == Keystroke(ts[i], counts[i], g)
    ensures Run(had + [op]) == Expand(Layout(pre, ts, counts[i := counts[i] + 1], post, g))
  {
    hide Run, Integrate, Expand, Keystroke;
    FirstPart(w, had, [op]);
    RunIsGood(w, had);
    NotKnownEarlier(had + [op], |had|, |had|);
    assert (had + [op])[..|had|] == had;
    NotHeld(had, Run(had), op.unit.id);
    KeystrokeId(ts[i], counts[i], g);
    KeystrokeFills(pre, ts, counts, post, g, i);
    RunNext(had, op);
  }

  /** The last keystroke, and those before it. */
  lemma LastDelivery(base: seq<Op>, ts: seq<Typist>, d: seq<nat>, ops: seq<Op>, g: Gap)
    requires Deliveries(ts, d, ops, g) && d != []
    ensures var n, c := |d| - 1, Counts(|ts|, d[..|d| - 1]);
      && |ops| == |d| && Deliveries(ts, d[..n], ops[..n], g) && base + ops == (base + ops[..n]) + [ops[n]]
      && d[n] < |ts| && Counts(|ts|, d) == c[d[n] := c[d[n]] + 1]
      && ops[n].unit == Keystroke(ts[d[n]], c[d[n]], g)
  {
    hide Keystroke;
    var n := |d| - 1;
    TakeNext(ops, n);
    assert ops[..n + 1] == ops;
    Assoc(base, ops[..n], [ops[n]]);
    DeliveriesInit(ts, d, ops, g);
  }

  lemma DeliveriesInit(ts: seq<Typist>, d: seq<nat>, ops: seq<Op>, g: Gap)
    requires Deliveries(ts, d, ops, g) && d != []
    ensures Deliveries(ts, d[..|d| - 1], ops[..|d| - 1], g)
  {
    hide Keystroke, Counts;
    assert forall k :: 0 <= k < |d| - 1 ==> d[..|d| - 1][..k] == d[..k];
  }

  lemma NoDelivery(base: seq<Op>, ts: seq<Typist>, ops: seq<Op>, pre: seq<Span>, post: seq<Span>, g: Gap)
    requires Deliveries(ts, [], ops, g)
    ensures base + ops == base && Layout(pre, ts, Counts(|ts|, []), post, g) == pre + post
  {
    hide Layout;
    assert ops == [];
    FillNone(ts, g, Counts(|ts|, []));
    LayoutNone(pre, ts, Counts(|ts|, []), post, g);
  }

  /**
    A replica that starts with nothing in the gap, and then receives the keystrokes of the
    typists in any order in which they can be delivered, always shows what it has received of
    each typist as one uninterrupted run, and the runs in ascending order of clients.
   */
  lemma {:induction false} RunsDoNotInterleave(w: set<Op>, base: seq<Op>, ops: seq<Op>, d: seq<nat>,
      pre: seq<Span>, post: seq<Span>, ts: seq<Typist>, g: Gap)
    requires World(w) && From(w, base + ops) && Deliverable(base + ops)
    requires IsGap(pre, post, g) && Run(base) == Expand(pre + post)
    requires Ascending(ts) && Deliveries(ts, d, ops, g)
    ensures Run(base + ops) == Expand(Layout(pre, ts, Counts(|ts|, d), post, g))
    decreases |d|
  {
    hide Run, Expand, Keystroke, Layout, World, From, Deliverable, Deliveries, Counts, IsGap, Ascending;
    if d == [] {
      NoDelivery(base, ts, ops, pre, post, g);
    } else {
      var n := |d| - 1;
      LastDelivery(base, ts, d, ops, g);
      FirstPart(w, base + ops[..n], [ops[n]]);
      RunsDoNotInterleave(w, base, ops[..n], d[..n], pre, post, ts, g);
      NextDelivery(w, base + ops[..n], ops[n], pre, post, ts, Counts(|ts|, d[..n]), g, d[n]);
    }
  }

  lemma LayoutNone(pre: seq<Span>, ts: seq<Typist>, counts: seq<nat>, post: seq<Span>, g: Gap)
    requires |ts| == |counts| && Fill(ts, counts, g) == []
    ensures Layout(pre, ts, counts, post, g) == pre + post
  {
    assert pre + [] == pre;
  }
}
