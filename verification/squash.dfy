/** Cutting a block and joining it again: what is kept, and when the block comes back whole. */
module Squash {
  import opened Ids
  import opened Seqs
  import opened AnyValue
  import opened Text
  import opened Spans
  import opened BlockIntegration
  import opened Block

  /** What one unit of a block shows. */
  datatype Element = Value(value: Any) | Raw(text: string) | CodeUnit(unit: int) | Gone | Single(content: Content)

  function Elements(c: Content): (es: seq<Element>)
    ensures |es| == c.Length16()
  {
    match c
    case AnyItems(v) => seq(|v|, i requires 0 <= i < |v| => Value(v[i]))
    case Json(v) => seq(|v|, i requires 0 <= i < |v| => Raw(v[i]))
    case Chars(s) => CodeUnits(Encode16(s))
    case Deleted(n) => seq(n, i => Gone)
    case _ => [Single(c)]
  }

  function CodeUnits(u: seq<int>): (es: seq<Element>)
    ensures |es| == |u|
  {
    seq(|u|, i requires 0 <= i < |u| => CodeUnit(u[i]))
  }

  lemma CodeUnitsConcat(u: seq<int>, v: seq<int>)
    ensures CodeUnits(u + v) == CodeUnits(u) + CodeUnits(v)
  {
  }

  lemma TwoHalves(u: seq<int>, k: nat, e: int)
    requires 0 < k < |u|
    ensures CodeUnits((u[..k - 1] + [e]) + ([e] + u[k + 1..])) == CodeUnits(u)[k - 1 := CodeUnit(e)][k := CodeUnit(e)]
  {
    assert (u[..k - 1] + [e]) + ([e] + u[k + 1..]) == u[k - 1 := e][k := e];
  }

  /** Contents that are not empty show the same only if they are the same. */
  lemma ElementsTell(c: Content, d: Content)
    requires Elements(c) == Elements(d) && c.Length16() > 0
    ensures c == d
  {
    var e := Elements(c)[0];
    assert e == Elements(d)[0];
    match c
    case AnyItems(v) => forall i | 0 <= i < |v| ensures v[i] == d.values[i] { assert Elements(c)[i] == Elements(d)[i]; }
    case Json(v) => forall i | 0 <= i < |v| ensures v[i] == d.texts[i] { assert Elements(c)[i] == Elements(d)[i]; }
    case Chars(s) =>
      forall i | 0 <= i < |Encode16(s)| ensures Encode16(s)[i] == Encode16(d.s)[i] {
        assert Elements(c)[i] == Elements(d)[i];
      }
      Encode16Tells(s, d.s);
    case _ =>
  }

  predicate Clean(c: Content, k: nat) {
    c.Chars? ==> !CutsPair(c.s, k)
  }

  /** A cut keeps what every unit shows, unless it falls inside a surrogate pair. */
  lemma CutElements(c: Content, k: nat)
    requires c.CanBeCut() && 0 < k <= c.Length16()
    ensures var (l, r) := c.Cut(k);
      Elements(l) + Elements(r) == if Clean(c, k) then Elements(c)
        else Elements(c)[k - 1 := CodeUnit(0xFFFD)][k := CodeUnit(0xFFFD)]
  {
    if c.Chars? {
      hide Encode16, CodeUnits;
      var u := Encode16(c.s);
      var (l, r) := Split16(c.s, k);
      Split16Units(c.s, k);
      CodeUnitsConcat(Encode16(l), Encode16(r));
      if CutsPair(c.s, k) {
        TwoHalves(u, k, 0xFFFD);
      } else {
        SplitAt(u, k);
      }
    }
  }

  /** The content is as long in units of this kind as in UTF-16, in which it is cut. */
  predicate Measured(c: Content, kind: OffsetKind) {
    c.Chars? && kind.Bytes? ==> Below(c.s, 0x80)
  }

  /** Every character is one unit. */
  predicate Plain(c: Content) {
    c.Chars? ==> Below(c.s, 0x10000)
  }

  lemma MeasuredLength(c: Content, kind: OffsetKind)
    requires Measured(c, kind)
    ensures LengthIn(c, kind) == c.Length16()
  {
    if c.Chars? && kind.Bytes? {
      BasicUnits(c.s);
      AsciiBytes(c.s);
    }
  }

  lemma MeasuredCut(c: Content, k: nat, kind: OffsetKind)
    requires Measured(c, kind) && c.CanBeCut() && 0 < k < c.Length16()
    ensures Measured(c.Cut(k).0, kind) && Measured(c.Cut(k).1, kind) && EvenCut(c, k, kind)
    ensures Clean(c, k) ==> Elements(c.Cut(k).0) + Elements(c.Cut(k).1) == Elements(c)
  {
    hide Elements, Encode16, Split16, Below;
    if c.Chars? && kind.Bytes? { BasicCut(c.s, k, 0x80); }
    CutElements(c, k);
  }

  lemma SquashElements(a: Content, b: Content)
    requires a.Squash(b).Some?
    ensures Elements(a.Squash(b).value) == Elements(a) + Elements(b)
  {
    if a.Chars? { Encode16Concat(a.s, b.s); }
  }

  /** Joining the parts gives back the content, unless a character was lost. */
  lemma SquashUndoesCut(c: Content, k: nat)
    requires c.CanBeCut() && 0 < k <= c.Length16()
    ensures c.Cut(k).0.Squash(c.Cut(k).1) == Some(c) <==> Clean(c, k)
    ensures c.Cut(k).0.Squash(c.Cut(k).1).Some?
  {
    match c
    case AnyItems(v) => SplitAt(v, k);
    case Json(v) => SplitAt(v, k);
    case Deleted(n) =>
    case Chars(s) =>
      Split16Units(s, k);
      if !Clean(c, k) {
        CutElements(c, k);
        SquashElements(c.Cut(k).0, c.Cut(k).1);
        assert Elements(c)[k] == CodeUnit(Encode16(s)[k]);
      }
  }

  // ----- whole blocks

  /** Everything that a block is, but its neighbours. */
  datatype Data = Data(span: Span, content: Content, deleted: bool, redone: Option<ID>, linked: bool, keep: bool)

  /** What one unit of a block is: its place, its state and what it shows. */
  datatype Seen = Seen(unit: Unit, deleted: bool, element: Element)

  predicate Proper(d: Data) {
    0 < d.span.len == d.content.Length16()
  }

  function Shown(d: Data): (r: seq<Seen>)
    requires Proper(d)
    ensures |r| == d.span.len
  {
    seq(d.span.len, i requires 0 <= i < d.span.len => Seen(d.span.UnitAt(i), d.deleted, Elements(d.content)[i]))
  }

  function CutData(d: Data, k: nat): (r: (Data, Data))
    requires Proper(d) && d.content.CanBeCut() && 0 < k < d.span.len
    ensures Proper(r.0) && Proper(r.1)
  {
    CutLengths(d.content, k);
    var redone := if d.redone.Some? then Some(IdAfter(d.redone.value, k)) else None;
    (d.(span := CutLeft(d.span, k), content := d.content.Cut(k).0),
     d.(span := CutRight(d.span, k), content := d.content.Cut(k).1, redone := redone))
  }

  predicate CanSquash(a: Data, b: Data)
    requires Proper(a)
  {
    && a.span.id.client == b.span.id.client && a.span.id.clock + a.span.len == b.span.id.clock
    && b.span.origin == Some(a.span.LastId()) && a.span.rightOrigin == b.span.rightOrigin
    && a.deleted == b.deleted && a.redone.None? && b.redone.None? && !a.linked && !b.linked
    && a.content.Squash(b.content).Some?
  }

  function Squashed(a: Data, b: Data): (r: Data)
    requires Proper(a) && Proper(b) && CanSquash(a, b)
    ensures Proper(r)
  {
    SquashElements(a.content, b.content);
    a.(span := a.span.(len := a.span.len + b.span.len), content := a.content.Squash(b.content).value,
       keep := a.keep || b.keep)
  }

  /** Cutting a block keeps all its units as they were, unless the cut is inside a surrogate pair. */
  lemma CutShows(d: Data, k: nat)
    requires Proper(d) && d.content.CanBeCut() && 0 < k < d.span.len
    ensures Shown(CutData(d, k).0) + Shown(CutData(d, k).1) == Shown(d) <==> Clean(d.content, k)
  {
    hide Elements, Content.Length16;
    var (a, b) := CutData(d, k);
    CutElements(d.content, k);
    var es := Elements(a.content) + Elements(b.content);
    if Clean(d.content, k) {
      forall i | 0 <= i < d.span.len ensures (Shown(a) + Shown(b))[i] == Shown(d)[i] {
        assert es[i] == Elements(d.content)[i];
      }
    } else {
      LowIsNotReplaced(d.content, k);
      assert es[k] == CodeUnit(0xFFFD) && (Shown(a) + Shown(b))[k].element == es[k];
      assert Shown(d)[k].element == Elements(d.content)[k];
    }
  }

  lemma LowIsNotReplaced(c: Content, k: nat)
    requires c.CanBeCut() && k < c.Length16() && !Clean(c, k)
    ensures Elements(c)[k] != CodeUnit(0xFFFD)
  {
    assert Elements(c)[k] == CodeUnit(Encode16(c.s)[k]);
  }

  /** Joining two blocks keeps all units of both. */
  lemma SquashShows(a: Data, b: Data)
    requires Proper(a) && Proper(b) && CanSquash(a, b)
    ensures Shown(Squashed(a, b)) == Shown(a) + Shown(b)
  {
    hide Elements;
    SquashElements(a.content, b.content);
  }

  /** The parts of a block can be joined again unless it is redone or linked, and give back the same block. */
  lemma SquashUndoesSplice(d: Data, k: nat)
    requires Proper(d) && d.content.CanBeCut() && 0 < k < d.span.len
    ensures CanSquash(CutData(d, k).0, CutData(d, k).1) <==> d.redone.None? && !d.linked
    ensures d.redone.None? && !d.linked ==>
      (Squashed(CutData(d, k).0, CutData(d, k).1) == d <==> Clean(d.content, k))
  {
    SquashUndoesCut(d.content, k);
  }

  // ----- blocks in a branch

  ghost function DataOf(it: Item): Data
    reads it`id, it`len, it`origin, it`rightOrigin, it`content, it`deleted, it`redone, it`linked, it`keep
  {
    Data(it.ToSpan(), it.content, it.deleted, it.redone, it.linked, it.keep)
  }

  /** The parts that a block in a branch is cut into are those that `CutData` says. */
  lemma PartsAreCut(it: Item, rest: Item, was: Data, k: nat)
    requires Proper(was) && it.Parts(rest, was.span, was.content, k)
    requires was == Data(was.span, was.content, it.deleted, it.redone, it.linked, it.keep)
    ensures DataOf(it) == CutData(was, k).0 && DataOf(rest) == CutData(was, k).1
  {
  }

  // ----- what a chain shows

  /** What the units of a block show. */
  ghost function Look(it: Item): seq<Seen>
    reads it`id, it`len, it`origin, it`rightOrigin, it`content, it`deleted, it`redone, it`linked, it`keep
  {
    if Proper(DataOf(it)) then Shown(DataOf(it)) else []
  }

  ghost function Looks(ch: seq<Item>): (ls: seq<seq<Seen>>)
    reads ch`id, ch`len, ch`origin, ch`rightOrigin, ch`content, ch`deleted, ch`redone, ch`linked, ch`keep
    ensures |ls| == |ch| && forall i :: 0 <= i < |ch| ==> ls[i] == Look(ch[i])
  {
    if ch == [] then [] else [Look(ch[0])] + Looks(ch[1..])
  }

  lemma LookIs(it: Item)
    requires it.HasLength()
    ensures Proper(DataOf(it)) && Look(it) == Shown(DataOf(it))
  {
  }

  lemma LooksAre(ch: seq<Item>, ls: seq<seq<Seen>>)
    requires |ls| == |ch| && forall i :: 0 <= i < |ch| ==> ls[i] == Look(ch[i])
    ensures Looks(ch) == ls
  {
  }

  /** What the units of a chain show, from left to right. */
  ghost function ShownAll(ch: seq<Item>): seq<Seen>
    reads ch`id, ch`len, ch`origin, ch`rightOrigin, ch`content, ch`deleted, ch`redone, ch`linked, ch`keep
  {
    Flat(Looks(ch))
  }

  /** The second half of a surrogate pair. */
  predicate IsLow(e: Element) {
    e.CodeUnit? && IsLowSurrogate(e.unit)
  }

  /** A cut before the unit with this id, if there is one, is not inside a surrogate pair. */
  ghost predicate CleanAt(shown: seq<Seen>, id: ID) {
    forall s :: s in shown && s.unit.id == id ==> !IsLow(s.element)
  }

  lemma LowIsCut(c: Content, k: nat)
    requires c.CanBeCut() && k < c.Length16()
    ensures IsLow(Elements(c)[k]) <==> !Clean(c, k)
  {
    if c.Chars? { assert Elements(c)[k] == CodeUnit(Encode16(c.s)[k]); }
  }

  lemma InChainShown(ch: seq<Item>, s: Seen)
    ensures s in ShownAll(ch) <==> exists j :: 0 <= j < |ch| && s in Look(ch[j])
  {
    hide Look, Flat;
    FlatHas(Looks(ch), s);
    if s in ShownAll(ch) {
      var j :| 0 <= j < |ch| && s in Looks(ch)[j];
      assert s in Look(ch[j]);
    }
    if j :| 0 <= j < |ch| && s in Look(ch[j]) { assert s in Looks(ch)[j]; }
  }

  lemma InBlockShown(it: Item, s: Seen)
    requires it.HasLength() && s in Look(it)
    ensures it.Has(s.unit.id) && s.element == Elements(it.content)[s.unit.id.clock - it.id.clock]
    ensures s.deleted == it.deleted
  {
    hide Elements;
  }

  /** What a cut of a block in a chain falls on can be seen from what the chain shows. */
  lemma CleanIs(ch: seq<Item>, i: nat, k: nat)
    requires (forall j :: 0 <= j < |ch| ==> ch[j].HasLength()) && i < |ch| && 0 < k < ch[i].len
    requires forall j :: 0 <= j < |ch| && j != i ==> !ch[j].Has(IdAfter(ch[i].id, k))
    ensures CleanAt(ShownAll(ch), IdAfter(ch[i].id, k)) <==> Clean(ch[i].content, k)
  {
    hide Elements, ShownAll, Look, Item.HasLength, IsLow, Clean;
    var it, at := ch[i], IdAfter(ch[i].id, k);
    var low := UnitOf(it, k);
    LowIsCut(it.content, k) by { LengthsOf(it); }
    InChainShown(ch, low);
    forall s | s in ShownAll(ch) && s.unit.id == at ensures IsLow(s.element) <==> !Clean(it.content, k) {
      InChainShown(ch, s);
      var j :| 0 <= j < |ch| && s in Look(ch[j]);
      InBlockShown(ch[j], s);
    }
  }

  lemma LengthsOf(it: Item)
    requires it.HasLength()
    ensures it.len > 1 ==> it.content.CanBeCut()
    ensures it.len == it.content.Length16() == |Elements(it.content)|
  {
  }

  lemma UnitOf(it: Item, k: nat) returns (s: Seen)
    requires it.HasLength() && k < it.len
    ensures s in Look(it) && s.unit.id == IdAfter(it.id, k) && s.element == Elements(it.content)[k]
  {
    hide Elements;
    s := Look(it)[k];
  }

  /** No unit of the chain is known that its blocks do not have. */
  lemma NotShown(ch: seq<Item>, id: ID)
    requires forall j :: 0 <= j < |ch| ==> ch[j].HasLength() && !ch[j].Has(id)
    ensures CleanAt(ShownAll(ch), id)
  {
    hide ShownAll, Look, Item.HasLength;
    forall s | s in ShownAll(ch) ensures s.unit.id != id {
      InChainShown(ch, s);
      var j :| 0 <= j < |ch| && s in Look(ch[j]);
      InBlockShown(ch[j], s);
    }
  }

  /** The parts of a block show what the block showed, exactly if no pair was cut. */
  lemma PartsShow(it: Item, rest: Item, was: Data, k: nat)
    requires Proper(was) && it.Parts(rest, was.span, was.content, k)
    requires was == Data(was.span, was.content, it.deleted, was.redone, it.linked, it.keep) && was.redone == it.redone
    ensures |Look(it) + Look(rest)| == |Shown(was)|
    ensures Look(it) + Look(rest) == Shown(was) <==> Clean(was.content, k)
  {
    hide Elements, Content.Cut, Content.Length16;
    CutLengths(was.content, k);
    PartsAreCut(it, rest, was, k);
    CutShows(was, k);
  }

  /** A block in a chain was cut: the chain shows the same, exactly if the parts show what the block showed. */
  lemma CutChainShows(ch: seq<Item>, i: nat, rest: Item, ls: seq<seq<Seen>>)
    requires i < |ch| == |ls| && |Look(ch[i]) + Look(rest)| == |ls[i]|
    requires forall j :: 0 <= j < |ch| && j != i ==> ls[j] == Look(ch[j])
    ensures ShownAll(Put(ch, i, rest)) == Flat(ls) <==> Look(ch[i]) + Look(rest) == ls[i]
  {
    hide Look, Looks, Flat;
    var both := Look(ch[i]) + Look(rest);
    var t, u := Put(ch, i, rest), ls[..i] + [Look(ch[i]), Look(rest)] + ls[i + 1..];
    forall j | 0 <= j < |t| ensures u[j] == Look(t[j]) { PutGet(ch, i, rest, j); }
    LooksAre(t, u);
    var ms := ls[i := both];
    assert ms[..i] == ls[..i] && ms[i + 1..] == ls[i + 1..];
    FlatCut(ms, i, Look(ch[i]), Look(rest));
    FlatSame(ls, i, both);
  }

  /** A block was put into a chain: what it shows is inserted. */
  lemma PutShows(ch: seq<Item>, c: int, x: Item, ls: seq<seq<Seen>>)
    requires -1 <= c < |ch| == |ls| && forall j :: 0 <= j < |ch| ==> ls[j] == Look(ch[j])
    ensures IsInserted(Flat(ls), |Flat(ls[..c + 1])|, Look(x), ShownAll(Put(ch, c, x)))
    ensures Inserted(Flat(ls), Look(x), ShownAll(Put(ch, c, x)))
  {
    hide Look, Looks, Flat;
    var t, u := Put(ch, c, x), ls[..c + 1] + [Look(x)] + ls[c + 1..];
    forall j | 0 <= j < |t| ensures u[j] == Look(t[j]) { PutGet(ch, c, x, j); }
    LooksAre(t, u);
    FlatPut(ls, c + 1, Look(x));
    FlatSplit(ls, c + 1);
    var a, b := Flat(ls[..c + 1]), Flat(ls[c + 1..]);
    assert (a + b)[..|a|] == a && (a + b)[|a|..] == b;
  }

  ghost function Without(ch: seq<Item>, j: nat): seq<Item>
    requires j < |ch|
  {
    ch[..j] + ch[j + 1..]
  }

  /** The links of block `k` when the links of its neighbours lead past block `j`. */
  ghost predicate SkipsAt(ch: seq<Item>, j: nat, k: nat)
    requires k < |ch|
    reads ch`left, ch`right
  {
    && ch[k].left == (if k == j + 1 then At(ch, j - 1) else At(ch, k - 1))
    && ch[k].right == (if k == j - 1 then At(ch, j + 1) else At(ch, k + 1))
  }

  lemma WithoutLinked(ch: seq<Item>, j: nat)
    requires j < |ch| && forall i, k :: 0 <= i < k < |ch| ==> ch[i] != ch[k]
    requires forall k :: 0 <= k < |ch| && k != j ==> SkipsAt(ch, j, k)
    ensures Linked(Without(ch, j))
  {
    var t := Without(ch, j);
    forall k | 0 <= k < |t| ensures LinkedAt(t, k) {
      assert SkipsAt(ch, j, if k < j then k else k + 1);
    }
  }

  /** Makes the links lead past the block after `a`. */
  method Bypass(a: Item, ghost ch: seq<Item>, ghost i: nat)
    requires Linked(ch) && i + 1 < |ch| && ch[i] == a
    modifies a`right, ch`left
    ensures Linked(Without(ch, i + 1)) && a.right == At(ch, i + 2)
  {
    assert LinkedAt(ch, i) && LinkedAt(ch, i + 1);
    var o := a.right;
    if o.right != null { o.right.left := a; }
    a.right := o.right;
    ghost var j := i + 1;
    forall k | 0 <= k < |ch| && k != j ensures SkipsAt(ch, j, k) {
      assert old(LinkedAt(ch, k));
    }
    WithoutLinked(ch, j);
  }

  lemma EntriesWithout(entries: map<string, Item>, chains: map<Option<string>, seq<Item>>,
      key: Option<string>, j: nat)
    requires EntriesOk(entries, chains) && key in chains && 0 < j < |chains[key]| && Linked(chains[key])
    ensures EntriesOk(entries, chains[key := Without(chains[key], j)])
            <==> key.None? || j + 1 < |chains[key]|
    ensures key.Some? && j + 1 == |chains[key]| ==>
      EntriesOk(entries[key.value := chains[key][j - 1]], chains[key := Without(chains[key], j)])
  {
    var ch, t := chains[key], Without(chains[key], j);
    assert |t| == |ch| - 1 && t[|t| - 1] == if j + 1 < |ch| then ch[|ch| - 1] else ch[j - 1];
    if key.Some? {
      assert EndsWith(ch, entries[key.value]);
      assert chains[key := t][key] == t;
      if EntriesOk(entries, chains[key := t]) { assert EndsWith(chains[key := t][key], entries[key.value]); }
    }
  }

  /** Takes the block after `a` out of the branch. */
  method Unlink(b: Branch, a: Item, ghost key: Option<string>, ghost i: nat)
    requires b.Valid() && i + 1 < |b.Chain(key)| && b.Chain(key)[i] == a
    modifies a`right, b.items`left, b`chains, b`items
    ensures b.items == old(b.items) - {old(b.Chain(key))[i + 1]}
    ensures b.chains == old(b.chains)[key := Without(old(b.Chain(key)), i + 1)]
    ensures b.Chained() && (b.Valid() <==> key.None? || i + 2 < |old(b.Chain(key))|)
    ensures key.Some? && i + 2 == |old(b.Chain(key))| ==> EntriesOk(b.entries[key.value := a], b.chains)
  {
    hide EntriesOk, LinkedAt, Linked, Without;
    ghost var ch := b.Chain(key);
    b.LinkedChain(key);
    WithoutHas(ch, i + 1);
    EntriesWithout(b.entries, b.chains, key, i + 1);
    Bypass(a, ch, i);
    forall other | other in b.chains && other != key ensures b.ChainOk(other, b.chains[other]) {
      ghost var u := b.chains[other];
      assert old(b.ChainOk(other, u));
      assert forall o :: o in u ==> o.parentSub == other && o !in ch;
    }
    Forget(b, key, ch, i + 1);
  }

  /** Block `j` is no longer linked: all that is left is to say so. */
  ghost method Forget(b: Branch, key: Option<string>, ch: seq<Item>, j: nat)
    requires key in b.chains && ch == b.chains[key] && 0 < j < |ch|
    requires None in b.chains && b.start == At(b.chains[None], 0)
    requires forall other :: other in b.chains && other != key ==> b.ChainOk(other, b.chains[other])
    requires forall o :: o in ch ==> o in b.items && o.parent == b && o.parentSub == key
    requires Linked(Without(ch, j)) && (forall o :: o in Without(ch, j) ==> o in ch && o != ch[j])
    requires At(Without(ch, j), 0) == At(ch, 0) && ch[j].parentSub == key
    requires forall o :: o in ch && o != ch[j] ==> o in Without(ch, j)
    requires forall o :: o in b.items ==> o in b.Chain(o.parentSub)
    modifies b`chains, b`items
    ensures b.items == old(b.items) - {ch[j]} && b.chains == old(b.chains)[key := Without(ch, j)]
    ensures b.Chained()
  {
    hide EntriesOk, LinkedAt, Linked, Without;
    var t := Without(ch, j);
    b.items := b.items - {ch[j]};
    b.chains := b.chains[key := t];
    assert b.ChainOk(key, t);
    forall other | other in b.chains && other != key ensures b.ChainOk(other, b.chains[other]) {
      var u := b.chains[other];
      assert old(b.ChainOk(other, u));
      assert forall o :: o in u ==> o.parentSub == other && o != ch[j];
    }
  }

  lemma WithoutHas(ch: seq<Item>, j: nat)
    requires Linked(ch) && 0 < j < |ch|
    ensures forall o :: o in Without(ch, j) ==> o in ch && o != ch[j]
    ensures forall o :: o in ch && o != ch[j] ==> o in Without(ch, j)
    ensures At(Without(ch, j), 0) == At(ch, 0)
  {
    WithoutOne(ch, j);
  }

  method Absorb(a: Item, o: Item)
    requires Proper(DataOf(a)) && Proper(DataOf(o)) && CanSquash(DataOf(a), DataOf(o)) && a != o
    modifies a`len, a`content, a`keep
    ensures DataOf(a) == Squashed(old(DataOf(a)), old(DataOf(o)))
  {
    hide Elements, Content.Length16;
    a.content, a.len, a.keep := a.content.Squash(o.content).value, a.len + o.len, a.keep || o.keep;
  }

  /**
    Joins a block with the one after it, if they were made as one.
    The entry of a key is not updated, so the last block of a key's chain must not be joined to another.
   */
  method TrySquash(a: Item, o: Item) returns (ok: bool)
    requires a.parent != null && a.parent.Valid() && a in a.parent.Chain(a.parentSub)
    requires Proper(DataOf(a)) && Proper(DataOf(o))
    modifies a`len, a`content, a`right, a`keep, a.parent.items`left, a.parent`chains, a.parent`items
    ensures ok == old(CanSquash(DataOf(a), DataOf(o)) && a.right == o)
    ensures !ok ==> unchanged(a) && a.parent.Valid()
    ensures !ok ==> a.parent.chains == old(a.parent.chains) && a.parent.items == old(a.parent.items)
    ensures ok ==>
      && DataOf(a) == Squashed(old(DataOf(a)), old(DataOf(o))) && a.parent.items == old(a.parent.items) - {o}
      && old(o in a.parent.Chain(a.parentSub))
      && a.parent.chains == old(a.parent.chains)[a.parentSub :=
           Without(old(a.parent.Chain(a.parentSub)), Pos(old(a.parent.Chain(a.parentSub)), o))]
      && a.parent.Chained() && (a.parent.Valid() <==> a.parentSub.None? || o.right != null)
      && (a.parentSub.Some? && o.right == null ==>
            EntriesOk(a.parent.entries[a.parentSub.value := a], a.parent.chains))
  {
    hide Elements, Branch.Valid, Linked, Without, Content.Squash, Content.Length16, Squashed;
    ok := a.id.client == o.id.client && a.id.clock + a.len == o.id.clock
      && o.origin == Some(a.LastId()) && a.rightOrigin == o.rightOrigin
      && a.right == o && a.deleted == o.deleted && a.redone.None? && o.redone.None?
      && !a.linked && !o.linked && a.content.Squash(o.content).Some?;
    if ok {
      ghost var key := a.parentSub;
      ghost var ch := a.parent.Chain(key);
      ghost var i := Pos(ch, a);
      a.parent.LinkedChain(key);
      a.parent.Neighbours(key, i);
      a.parent.Neighbours(key, i + 1);
      Unique(ch, i + 1);
      Absorb(a, o);
      Unlink(a.parent, a, key, i);
    }
  }

  /** Two blocks in a chain were joined: the chain shows the same. */
  lemma JoinShows(ch: seq<Item>, i: nat, ls: seq<seq<Seen>>)
    requires i + 1 < |ch| == |ls| && Look(ch[i]) == ls[i] + ls[i + 1]
    requires forall j :: 0 <= j < |ch| && j != i && j != i + 1 ==> ls[j] == Look(ch[j])
    ensures ShownAll(Without(ch, i + 1)) == Flat(ls)
  {
    hide Look, Looks, Flat;
    var t, u := Without(ch, i + 1), ls[..i] + [Look(ch[i])] + ls[i + 2..];
    forall j | 0 <= j < |t| ensures u[j] == Look(t[j]) { }
    LooksAre(t, u);
    FlatCut(u, i, ls[i], ls[i + 1]);
    assert u[..i] + [ls[i], ls[i + 1]] + u[i + 1..] == ls;
  }

  /** The two blocks have been joined: their chain shows the same. */
  lemma JoinedShows(ch: seq<Item>, i: nat, ls: seq<seq<Seen>>, a: Data, o: Data)
    requires i + 1 < |ch| == |ls| && forall j :: 0 <= j < |ch| && j != i && j != i + 1 ==> ls[j] == Look(ch[j])
    requires Proper(a) && Proper(o) && CanSquash(a, o) && DataOf(ch[i]) == Squashed(a, o)
    requires ls[i] == Shown(a) && ls[i + 1] == Shown(o)
    ensures ShownAll(Without(ch, i + 1)) == Flat(ls)
  {
    hide Shown, Flat, Squashed, CanSquash;
    SquashShows(a, o);
    JoinShows(ch, i, ls);
  }

  /** Joins two blocks, and makes the key lead to the first of them if it led to the other one. */
  method SquashLeft(a: Item, o: Item) returns (ok: bool)
    requires a.parent != null && a.parent.Valid() && a in a.parent.Chain(a.parentSub)
    requires Proper(DataOf(a)) && Proper(DataOf(o))
    modifies a`len, a`content, a`right, a`keep, a.parent.items`left
    modifies a.parent`chains, a.parent`items, a.parent`entries
    ensures ok == old(CanSquash(DataOf(a), DataOf(o)) && a.right == o)
    ensures a.parent.Valid() && (!ok ==> unchanged(a))
    ensures !ok ==> a.parent.chains == old(a.parent.chains) && a.parent.items == old(a.parent.items)
    ensures ok ==>
      && DataOf(a) == Squashed(old(DataOf(a)), old(DataOf(o))) && a.parent.items == old(a.parent.items) - {o}
      && old(o in a.parent.Chain(a.parentSub))
      && a.parent.chains == old(a.parent.chains)[a.parentSub :=
           Without(old(a.parent.Chain(a.parentSub)), Pos(old(a.parent.Chain(a.parentSub)), o))]
  {
    hide Elements, Linked, Without, Content.Squash, Content.Length16, Squashed, CanSquash, Branch.Chained, EntriesOk;
    if a.right == o { EntryIsLast(a.parent, a.parentSub, a, o); }
    ok := TrySquash(a, o);
    if ok && o.parentSub.Some? && o.parent != null {
      if o.parentSub.value in o.parent.entries && o.parent.entries[o.parentSub.value] == o {
        o.parent.entries := o.parent.entries[o.parentSub.value := a];
      }
    }
  }

  /** Joining changes nothing of what the chain shows: ids, origins, what is deleted, and the contents. */
  method SquashOwn(a: Item, o: Item, ghost b: Branch, ghost own: Option<string>) returns (ok: bool)
    requires a.parent == b && a.parentSub == own && b.Valid() && a in b.Chain(own)
    requires Proper(DataOf(a)) && Proper(DataOf(o))
    modifies a`len, a`content, a`right, a`keep, b.items`left, b`chains, b`items, b`entries
    ensures b.Valid() && ShownAll(b.Chain(own)) == old(ShownAll(b.Chain(own)))
    ensures ok == old(CanSquash(DataOf(a), DataOf(o)) && a.right == o)
    ensures !ok ==> unchanged(a) && b.items == old(b.items)
    ensures ok ==> b.items == old(b.items) - {o} && DataOf(a) == Squashed(old(DataOf(a)), old(DataOf(o)))
    ensures ok ==> forall it :: it in old(b.Chain(own)) && it != o ==> it in b.Chain(own)
    ensures b.chains == old(b.chains)[own := b.Chain(own)]
  {
    hide DataOf, ShownAll;
    hide Elements, Linked, Without, Content.Squash, Content.Length16, Squashed, CanSquash, Branch.Valid, Looks, Flat;
    hide Shown;
    ghost var ch := b.Chain(own);
    ghost var ls, da, dt, i := Looks(ch), DataOf(a), DataOf(o), Pos(ch, a);
    b.LinkedChain(own);
    Unique(ch, i);
    ShownIs(ch, ls);
    if a.right == o { EntryIsLast(b, own, a, o); }
    ok := SquashLeft(a, o);
    if ok {
      JoinedShows(ch, i, ls, da, dt);
      WithoutOne(ch, i + 1);
    } else {
      LooksAre(ch, ls);
      ShownIs(ch, ls);
    }
  }

  /** Joining changes nothing of what any chain of the branch shows. */
  method SquashSame(a: Item, o: Item, ghost b: Branch, ghost key: Option<string>) returns (ok: bool)
    requires a.parent == b && b.Valid() && a in b.Chain(a.parentSub)
    requires Proper(DataOf(a)) && Proper(DataOf(o))
    modifies a`len, a`content, a`right, a`keep, b.items`left, b`chains, b`items, b`entries
    ensures b.Valid() && ShownAll(b.Chain(key)) == old(ShownAll(b.Chain(key)))
    ensures ok == old(CanSquash(DataOf(a), DataOf(o)) && a.right == o)
    ensures !ok ==> unchanged(a) && b.items == old(b.items)
    ensures ok ==> b.items == old(b.items) - {o} && DataOf(a) == Squashed(old(DataOf(a)), old(DataOf(o)))
    ensures ok ==> forall it :: it in old(b.items) && it != o && old(it in b.Chain(it.parentSub)) ==>
      it in b.Chain(it.parentSub)
  {
    hide DataOf, ShownAll, Squashed, CanSquash, Branch.Valid;
    ghost var own := a.parentSub;
    if key != own { NotInOther(b, own, key, a); }
    ok := SquashOwn(a, o, b, own);
  }

  lemma ShownIs(ch: seq<Item>, ls: seq<seq<Seen>>)
    requires ls == Looks(ch)
    ensures ShownAll(ch) == Flat(ls)
  {
  }

  lemma WithoutOne(ch: seq<Item>, j: nat)
    requires j < |ch|
    ensures forall it :: it in ch && it != ch[j] ==> it in Without(ch, j)
  {
  }

  lemma NotInOther(b: Branch, key: Option<string>, other: Option<string>, a: Item)
    requires b.Valid() && a in b.Chain(key) && key != other
    ensures a !in b.Chain(other)
  {
    hide Branch.Valid, Linked;
    b.LinkedChain(key);
    b.LinkedChain(other);
  }

  lemma EntryIsLast(b: Branch, key: Option<string>, a: Item, o: Item)
    requires b.Valid() && a in b.Chain(key) && a.right == o
    ensures o != a && o.parent == b && o.parentSub == key
    ensures var ch, i := b.Chain(key), Pos(b.Chain(key), a);
      i + 1 < |ch| && ch[i + 1] == o && forall j :: 0 <= j < |ch| && ch[j] == o ==> j == i + 1
    ensures key.Some? ==> key.value in b.entries && (b.entries[key.value] == o <==> o.right == null)
  {
    hide Branch.Valid, Linked;
    var ch := b.Chain(key);
    b.LinkedChain(key);
    b.Neighbours(key, Pos(ch, a));
    b.Neighbours(key, Pos(ch, a) + 1);
    Unique(ch, Pos(ch, a));
    Unique(ch, Pos(ch, a) + 1);
    if key.Some? {
      assert EndsWith(ch, b.entries[key.value]) by { LastEntryOf(b, key.value); }
      Unique(ch, |ch| - 1);
    }
  }

  lemma LastEntryOf(b: Branch, key: string)
    requires b.Valid() && Some(key) in b.chains
    ensures key in b.entries && EndsWith(b.chains[Some(key)], b.entries[key])
  {
  }
}
