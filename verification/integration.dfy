/** A transaction, and what it does to put a block that was made elsewhere into its place. */
module Integration {
  import opened Ids
  import opened Seqs
  import opened Text
  import opened Spans
  import opened BlockIntegration
  import opened Block
  import opened Squash

  function IdsOf(b: Span): set<ID> {
    set k | 0 <= k < b.len :: b.IdAt(k)
  }

  class Transaction {
    var blocks: BlockStore
    var deleteSet: set<ID>
    var insertSet: set<ID>
    const kind: OffsetKind

    constructor (blocks: BlockStore, kind: OffsetKind)
      ensures this.blocks == blocks && this.kind == kind && deleteSet == insertSet == {}
    {
      this.blocks, this.kind, deleteSet, insertSet := blocks, kind, {}, {};
    }

    // ----- deletion

    /** Takes the length of a block off its branch, if it was counted. */
    method Discount(it: Item)
      requires it.parent != null && it.parent.Valid() && it in it.parent.Chain(it.parentSub)
      requires it.parent.Counted(kind) && !it.deleted
      modifies it.parent`blockLen, it.parent`contentLen
      ensures it.parentSub.None? ==>
        && it.parent.blockLen == old(it.parent.blockLen) - it.Weight(Utf16)
        && it.parent.contentLen == old(it.parent.contentLen) - it.Weight(kind)
      ensures it.parentSub.Some? ==>
        it.parent.blockLen == old(it.parent.blockLen) && it.parent.contentLen == old(it.parent.contentLen)
    {
      hide Weights, Branch.Valid;
      if it.parentSub.None? && it.countable {
        ghost var ch := it.parent.Chain(None);
        SumSet(Weights(ch, Utf16), Pos(ch, it), 0);
        SumSet(Weights(ch, kind), Pos(ch, it), 0);
        it.parent.blockLen := it.parent.blockLen - it.len;
        it.parent.contentLen := it.parent.contentLen - it.ContentLen(kind);
      }
    }

    /** Marks a block of a branch as deleted, once. */
    method Delete(it: Item) returns (done: bool)
      requires it.parent != null && it.parent.Valid() && it in it.parent.Chain(it.parentSub)
      requires it.parent.Counted(kind)
      modifies this`deleteSet, it`deleted, it.parent`blockLen, it.parent`contentLen
      ensures it.deleted && done == !old(it.deleted)
      ensures deleteSet == if done then old(deleteSet) + IdsOf(it.ToSpan()) else old(deleteSet)
      ensures it.parent.Counted(kind)
    {
      hide Weights, Sum, Linked, Branch.Valid, Branch.ChainOk, IdsOf;
      done := !it.deleted;
      if done {
        ghost var ch := it.parent.Chain(None);
        ghost var w, u := Weights(ch, Utf16), Weights(ch, kind);
        ghost var i := if it in ch then Pos(ch, it) else -1;
        it.parent.OneBranchOneChain(it, i);
        Discount(it);
        it.deleted := true;
        deleteSet := deleteSet + IdsOf(it.ToSpan());
        WeightsAre(ch, Utf16, if i < 0 then w else w[i := 0]);
        WeightsAre(ch, kind, if i < 0 then u else u[i := 0]);
        if i >= 0 {
          SumSet(w, i, 0);
          SumSet(u, i, 0);
        }
      }
    }

    // ----- lookup

    /** What is known of a branch between two operations. */
    ghost predicate Holds(b: Branch)
      reads this`blocks, blocks, blocks.stored`id, blocks.stored`len, blocks.stored`parent
      reads b`start, b`entries, b`chains, b`items
      reads b.items`parent, b.items`parentSub, b.items`left, b.items`right, b.items`len, b.items`content
    {
      blocks.Valid() && blocks.Exact() && b.Valid() && b.Sound(blocks) && AllOf(b)
    }

    /** No stored block of the branch is missing there. */
    ghost predicate AllOf(b: Branch)
      reads this`blocks, blocks`stored, blocks.stored`parent, b`items
    {
      forall it :: it in blocks.stored && it.parent == b ==> it in b.items
    }

    /** Cuts a block: no id is in two blocks after that. */
    method SplitLinks(it: Item, k: nat, ghost b: Branch, ghost key: Option<string>, ghost i: nat)
      returns (rest: Item)
      requires blocks.Valid() && it in blocks.stored && it.HasLength() && 0 < k < it.len
      requires b.Valid() && i < |b.Chain(key)| && b.Chain(key)[i] == it
      modifies it`len, it`content, b.items`left, b.items`right, b`start, b`entries, b`chains, b`items
      ensures blocks.Valid() && fresh(rest) && it.HasLength() && rest.HasLength()
      ensures forall o :: o in blocks.stored ==> Disjoint(rest.id, rest.len, o.id, o.len)
      ensures b.Valid() && b.items == old(b.items) + {rest}
      ensures b.chains == old(b.chains)[key := Put(old(b.Chain(key)), i, rest)]
      ensures it.Parts(rest, old(it.ToSpan()), old(it.content), k)
    {
      hide Branch.Valid, Put, Content.Cut, Content.Length16, Linked;
      b.LinkedChain(key);
      Unique(b.Chain(key), i);
      var r := it.Splice(k);
      rest := r;
      CutLengths(old(it.content), k);
      forall a, c | a in blocks.stored && c in blocks.stored && a != c ensures Disjoint(a.id, a.len, c.id, c.len) {
        assert old(Disjoint(a.id, a.len, c.id, c.len));
      }
      forall o | o in blocks.stored ensures Disjoint(rest.id, rest.len, o.id, o.len) {
        assert o != it ==> old(Disjoint(it.id, it.len, o.id, o.len));
      }
    }

    /** What cutting a block in the sequence does to what the sequence weighs. */
    lemma SplitTotals(w: seq<nat>, u: seq<nat>, ch: seq<Item>, i: nat, rest: Item, whole: Content, k: nat)
      requires i < |ch| == |w| == |u|
      requires forall j :: 0 <= j < |ch| && j != i ==>
        ch[j].Weight(Utf16) == w[j] && ch[j].Weight(kind) == u[j]
      requires w[i] == (if ch[i].Counts() then LengthIn(whole, Utf16) else 0)
      requires u[i] == (if ch[i].Counts() then LengthIn(whole, kind) else 0)
      requires whole.CanBeCut() && k <= whole.Length16()
      requires ch[i].content == whole.Cut(k).0 && rest.content == whole.Cut(k).1
      requires ch[i].len == ch[i].content.Length16() && rest.len == rest.content.Length16()
      requires ch[i].Counts() == rest.Counts()
      ensures Sum(Weights(Put(ch, i, rest), Utf16)) == Sum(w)
      ensures Sum(Weights(Put(ch, i, rest), kind))
        == Sum(u) + if !ch[i].Counts() || EvenCut(whole, k, kind) then 0 else 2
    {
      hide Weights, Sum, Put, Item.Weight, Content.Cut, Content.Length16, Content.Length8;
      CutWeights(w, ch, i, rest, Utf16);
      CutWeights(u, ch, i, rest, kind);
      PartsWeigh(ch[i], rest, whole, k, Utf16);
      PartsWeigh(ch[i], rest, whole, k, kind);
    }

    /** Takes note of what a cut adds to the weight of the sequence. */
    ghost method Recount(b: Branch, w: seq<nat>, u: seq<nat>, ch: seq<Item>, i: nat, rest: Item, whole: Content, k: nat)
      requires i < |ch| == |w| == |u| && b.Chain(None) == Put(ch, i, rest)
      requires forall j :: 0 <= j < |ch| && j != i ==>
        ch[j].Weight(Utf16) == w[j] && ch[j].Weight(kind) == u[j]
      requires w[i] == (if ch[i].Counts() then LengthIn(whole, Utf16) else 0)
      requires u[i] == (if ch[i].Counts() then LengthIn(whole, kind) else 0)
      requires whole.CanBeCut() && k <= whole.Length16()
      requires ch[i].content == whole.Cut(k).0 && rest.content == whole.Cut(k).1
      requires ch[i].len == ch[i].content.Length16() && rest.len == rest.content.Length16()
      requires ch[i].Counts() == rest.Counts()
      modifies b`lost
      ensures b.lost == old(b.lost) + if !ch[i].Counts() || EvenCut(whole, k, kind) then 0 else 2
      ensures b.blockLen == Sum(w) && b.contentLen + old(b.lost) == Sum(u) ==> b.Counted(kind)
    {
      hide Weights, Sum, Put, Content.Cut, Content.Length16, Item.Weight, EvenCut, LengthIn;
      SplitTotals(w, u, ch, i, rest, whole, k);
      b.lost := b.lost + if !ch[i].Counts() || EvenCut(whole, k, kind) then 0 else 2;
    }

    /** Cuts a block, and keeps count. */
    method SplitCounted(it: Item, k: nat, ghost b: Branch, ghost key: Option<string>, ghost i: nat)
      returns (rest: Item)
      requires blocks.Valid() && it in blocks.stored && it.HasLength() && 0 < k < it.len
      requires b.Valid() && i < |b.Chain(key)| && b.Chain(key)[i] == it
      modifies it`len, it`content, b.items`left, b.items`right, b`start, b`entries, b`chains, b`items, b`lost
      ensures blocks.Valid() && fresh(rest) && it.HasLength() && rest.HasLength()
      ensures forall o :: o in blocks.stored ==> Disjoint(rest.id, rest.len, o.id, o.len)
      ensures b.Valid() && b.items == old(b.items) + {rest}
      ensures b.chains == old(b.chains)[key := Put(old(b.Chain(key)), i, rest)]
      ensures it.Parts(rest, old(it.ToSpan()), old(it.content), k)
      ensures old(b.Counted(kind)) ==> b.Counted(kind)
      ensures b.lost == old(b.lost) +
        if key.Some? || !it.Counts() || EvenCut(old(it.content), k, kind) then 0 else 2
    {
      hide Item.ToSpan;
      hide Branch.Valid, Put, ToSpans, BlockStore.Valid, Content.Cut, Content.Length16, Disjoint, Linked, Weights, Sum;
      hide Item.Weight, EvenCut, LengthIn;
      ghost var ch, main := b.Chain(key), b.Chain(None);
      ghost var w, u := Weights(main, Utf16), Weights(main, kind);
      b.LinkedChain(key);
      b.LinkedChain(None);
      Unique(ch, i);
      WeightIs(it, Utf16);
      WeightIs(it, kind);
      rest := SplitLinks(it, k, b, key, i);
      if key.None? {
        Recount(b, w, u, ch, i, rest, old(it.content), k);
      } else {
        WeightsAre(main, Utf16, w);
        WeightsAre(main, kind, u);
      }
    }

    /** Cuts a block, and keeps track of where units are. */
    method SplitSpans(it: Item, k: nat, ghost b: Branch, ghost key: Option<string>, ghost i: nat)
      returns (rest: Item)
      requires Holds(b) && i < |b.Chain(key)| && b.Chain(key)[i] == it && 0 < k < it.len
      modifies it`len, it`content, b.items`left, b.items`right, b`start, b`entries, b`chains, b`items, b`lost
      ensures blocks.Valid() && fresh(rest) && it.HasLength() && rest.HasLength() && Whole(b.items)
      ensures forall o :: o in blocks.stored ==> Disjoint(rest.id, rest.len, o.id, o.len)
      ensures b.Valid() && b.items == old(b.items) + {rest} && old(b.items) <= blocks.stored
      ensures b.chains == old(b.chains)[key := Put(old(b.Chain(key)), i, rest)]
      ensures IsCut(old(ToSpans(b.Chain(key))), i, k, ToSpans(b.Chain(key)))
      ensures it.Parts(rest, old(it.ToSpan()), old(it.content), k)
      ensures old(b.Counted(kind)) ==> b.Counted(kind)
      ensures b.lost == old(b.lost) +
        if key.Some? || !it.Counts() || EvenCut(old(it.content), k, kind) then 0 else 2
    {
      hide Branch.Valid, Put, ToSpans, BlockStore.Valid, Content.Cut, Content.Length16, Item.HasLength, Disjoint, Cut;
      hide Branch.Totals, EvenCut, Linked, Whole;
      ghost var ch := b.Chain(key);
      ghost var bs := ToSpans(ch);
      b.LinkedChain(key);
      Unique(ch, i);
      WholeBut(b.items, it);
      rest := SplitCounted(it, k, b, key, i);
      CutSpans(bs, ch, i, rest, k);
      WholeWith(old(b.items), it, rest);
    }

    /** Cuts a block of a branch, and stores the rest. */
    method Split(it: Item, k: nat, ghost b: Branch, ghost key: Option<string>, ghost i: nat)
      returns (rest: Item)
      requires Holds(b) && i < |b.Chain(key)| && b.Chain(key)[i] == it && 0 < k < it.len
      modifies blocks, it`len, it`content, b.items`left, b.items`right, b`start, b`entries, b`chains, b`items, b`lost
      ensures Holds(b) && fresh(rest) && blocks.stored == old(blocks.stored) + {rest}
      ensures b.items == old(b.items) + {rest} && blocks.known == old(blocks.known)
      ensures b.chains == old(b.chains)[key := Put(old(b.Chain(key)), i, rest)]
      ensures IsCut(old(ToSpans(b.Chain(key))), i, k, ToSpans(b.Chain(key)))
      ensures it.Parts(rest, old(it.ToSpan()), old(it.content), k)
      ensures old(b.Counted(kind)) ==> b.Counted(kind)
      ensures b.lost == old(b.lost) +
        if key.Some? || !it.Counts() || EvenCut(old(it.content), k, kind) then 0 else 2
    {
      hide Branch.Valid, Put, ToSpans, BlockStore.Valid, Content.Cut, Content.Length16, Disjoint, IsCut, Whole;
      hide Branch.Totals, EvenCut, Linked;
      ghost var was := it.ToSpan();
      KnownIds(b, key, i);
      rest := SplitSpans(it, k, b, key, i);
      forall id | id in blocks.known ensures blocks.Stored(id) || was.Contains(id) {
        assert old(blocks.Stored(id));
        var o :| o in blocks.stored && old(o.Has(id));
        assert o == it || o.Has(id);
      }
      StoreRest(it, rest, was);
    }

    lemma KnownIds(b: Branch, key: Option<string>, i: nat)
      requires Holds(b) && i < |b.Chain(key)|
      ensures b.Chain(key)[i] in blocks.stored && b.Chain(key)[i].HasLength()
      ensures forall id :: b.Chain(key)[i].ToSpan().Contains(id) ==> id in blocks.known
    {
      hide Branch.Valid, Linked;
      b.LinkedChain(key);
      assert forall id :: b.Chain(key)[i].ToSpan().Contains(id) <==> b.Chain(key)[i].Has(id);
    }

    /** Stores the rest of a block: no id is new. */
    method StoreRest(it: Item, rest: Item, ghost was: Span)
      requires blocks.Valid() && it in blocks.stored && rest !in blocks.stored && rest.len > 0
      requires forall o :: o in blocks.stored ==> Disjoint(rest.id, rest.len, o.id, o.len)
      requires forall id :: id in blocks.known ==> blocks.Stored(id) || was.Contains(id)
      requires forall id :: was.Contains(id) ==> id in blocks.known && (it.Has(id) || rest.Has(id))
      requires forall id :: rest.Has(id) ==> was.Contains(id)
      modifies blocks
      ensures blocks.Valid() && blocks.Exact() && blocks.stored == old(blocks.stored) + {rest}
      ensures blocks.known == old(blocks.known)
    {
      hide BlockStore.Valid, Disjoint;
      blocks.Push(rest);
      forall id | id in blocks.known ensures blocks.Stored(id) {
        if old(blocks.Stored(id)) {
          var o :| o in old(blocks.stored) && o.Has(id);
          assert o in blocks.stored;
        } else if !it.Has(id) {
          assert rest in blocks.stored && rest.Has(id);
        }
      }
    }

    /** If a block with `id` is stored at all, it is in this chain. */
    ghost predicate OnlyIn(id: ID, ch: seq<Item>)
      reads this`blocks, blocks`known, ch`id, ch`len, ch`origin, ch`rightOrigin
    {
      id in blocks.known ==> BlockOf(ToSpans(ch), id) >= 0
    }

    /** What looking up a neighbour never undoes: blocks stay where they are, and ids with them. */
    twostate predicate OnlyCuts(b: Branch, key: Option<string>)
      reads this`blocks, blocks`stored, blocks`known, b`items, b`chains, b`blockLen, b`contentLen, b`lost
      reads b.Chain(None)`deleted, b.Chain(None)`countable, b.Chain(None)`len, b.Chain(None)`content
      reads b.Chain(key)`id, b.Chain(key)`len, b.Chain(key)`deleted, b.Chain(key)`content
    {
      && fresh(b.items - old(b.items)) && fresh(blocks.stored - old(blocks.stored))
      && old(b.items) <= b.items && old(blocks.stored) <= blocks.stored
      && blocks.known == old(blocks.known)
      && (old(b.Counted(kind)) ==> b.Counted(kind))
      && (old(OneLives(b.Chain(key))) ==>
            OneLives(b.Chain(key)) && TopOf(b.Chain(key)) == old(TopOf(b.Chain(key))))
      && DeadIds(b.Chain(key)) == old(DeadIds(b.Chain(key)))
    }

    /** No unit changes, unless a cut falls inside a surrogate pair; and then the length goes wrong only in bytes. */
    twostate predicate SameUnits(b: Branch, key: Option<string>, cuts: set<ID>)
      reads b`chains, b`lost, b.Chain(key)`id, b.Chain(key)`len, b.Chain(key)`origin, b.Chain(key)`rightOrigin
      reads b.Chain(key)`content, b.Chain(key)`deleted, b.Chain(key)`redone, b.Chain(key)`linked, b.Chain(key)`keep
    {
      && (kind.Utf16? || key.Some? || old(AllClean(b.Chain(key), cuts)) ==> b.lost == old(b.lost))
      && (old(AllClean(b.Chain(key), cuts)) ==> ShownAll(b.Chain(key)) == old(ShownAll(b.Chain(key))))
      && DeadIds(b.Chain(key)) == old(DeadIds(b.Chain(key)))
    }

    /** A cut before this unit changes what the chain shows exactly if it falls inside a surrogate pair. */
    twostate predicate ExactCut(b: Branch, key: Option<string>, at: ID)
      reads b`chains, b`lost, b.Chain(key)`id, b.Chain(key)`len, b.Chain(key)`origin, b.Chain(key)`rightOrigin
      reads b.Chain(key)`content, b.Chain(key)`deleted, b.Chain(key)`redone, b.Chain(key)`linked, b.Chain(key)`keep
    {
      && (ShownAll(b.Chain(key)) == old(ShownAll(b.Chain(key))) <==> old(CleanAt(ShownAll(b.Chain(key)), at)))
      && (kind.Utf16? || key.Some? || old(CleanAt(ShownAll(b.Chain(key)), at)) ==> b.lost == old(b.lost))
    }

    lemma HasLengthIn(b: Branch, key: Option<string>, i: nat)
      requires Holds(b) && i < |b.Chain(key)|
      ensures b.Valid() && b.Chain(key)[i].HasLength() && forall o :: o in b.Chain(key) ==> o in b.items
      ensures forall j :: 0 <= j < |b.Chain(key)| && b.Chain(key)[j] == b.Chain(key)[i] ==> j == i
    {
      hide Branch.Valid, BlockStore.Valid, Linked;
      b.LinkedChain(key);
      Unique(b.Chain(key), i);
    }

    /** No id is in two blocks of a chain. */
    lemma OneHas(b: Branch, key: Option<string>, i: nat, id: ID)
      requires Holds(b) && i < |b.Chain(key)| && b.Chain(key)[i].Has(id)
      ensures forall j :: 0 <= j < |b.Chain(key)| ==> b.Chain(key)[j].HasLength()
      ensures forall j :: 0 <= j < |b.Chain(key)| && j != i ==> !b.Chain(key)[j].Has(id)
    {
      hide Branch.Valid, BlockStore.Valid, Linked;
      b.LinkedChain(key);
      Unique(b.Chain(key), i);
      forall j | 0 <= j < |b.Chain(key)| && j != i ensures !b.Chain(key)[j].Has(id) {
        NotInBoth(blocks, b.Chain(key)[j], b.Chain(key)[i], id);
      }
    }

    /** Cuts a block; its units stay as they are. */
    method SplitSame(it: Item, k: nat, ghost b: Branch, ghost key: Option<string>, ghost i: nat)
      returns (rest: Item)
      requires Holds(b) && i < |b.Chain(key)| && b.Chain(key)[i] == it && 0 < k < it.len
      modifies blocks, it`len, it`content, b.items`left, b.items`right, b`start, b`entries, b`chains, b`items, b`lost
      ensures Holds(b) && fresh(rest) && blocks.stored == old(blocks.stored) + {rest}
      ensures blocks.known == old(blocks.known)
      ensures b.items == old(b.items) + {rest} && ExactCut(b, key, IdAfter(it.id, k))
      ensures rest.deleted == it.deleted
      ensures b.chains == old(b.chains)[key := Put(old(b.Chain(key)), i, rest)]
      ensures IsCut(old(ToSpans(b.Chain(key))), i, k, ToSpans(b.Chain(key)))
      ensures it.ToSpan() == CutLeft(old(it.ToSpan()), k) && rest.ToSpan() == CutRight(old(it.ToSpan()), k)
      ensures old(b.Counted(kind)) ==> b.Counted(kind)
    {
      hide Branch.Valid, BlockStore.Valid, BlockStore.Keeps, Put, ToSpans, Content.Cut, Content.Length16, IsCut;
      hide Branch.Totals, Elements, Look, Looks, Shown, Flat, CleanAt;
      ghost var ch, was := b.Chain(key), DataOf(it);
      ghost var ls := Looks(ch);
      HasLengthIn(b, key, i);
      LookIs(it);
      OneHas(b, key, i, IdAfter(it.id, k));
      CleanIs(ch, i, k);
      rest := Split(it, k, b, key, i);
      PartsShow(it, rest, was, k);
      CutChainShows(ch, i, rest, ls);
    }

    /** Cuts a block; the same ids are deleted. */
    method SplitDead(it: Item, k: nat, ghost b: Branch, ghost key: Option<string>, ghost i: nat)
      returns (rest: Item)
      requires Holds(b) && i < |b.Chain(key)| && b.Chain(key)[i] == it && 0 < k < it.len
      modifies blocks, it`len, it`content, b.items`left, b.items`right, b`start, b`entries, b`chains, b`items, b`lost
      ensures Holds(b) && fresh(rest) && blocks.stored == old(blocks.stored) + {rest}
      ensures blocks.known == old(blocks.known)
      ensures b.items == old(b.items) + {rest} && ExactCut(b, key, IdAfter(it.id, k))
      ensures rest.deleted == it.deleted
      ensures b.chains == old(b.chains)[key := Put(old(b.Chain(key)), i, rest)]
      ensures IsCut(old(ToSpans(b.Chain(key))), i, k, ToSpans(b.Chain(key)))
      ensures it.ToSpan() == CutLeft(old(it.ToSpan()), k) && rest.ToSpan() == CutRight(old(it.ToSpan()), k)
      ensures old(b.Counted(kind)) ==> b.Counted(kind)
      ensures DeadIds(b.Chain(key)) == old(DeadIds(b.Chain(key)))
    {
      hide Branch.Counted, Holds, ToSpans, IsCut, ExactCut, DeadIds, IdsIn, Put, SpanIds, Branch.Valid;
      ghost var ch, was := b.Chain(key), it.ToSpan();
      ghost var others := set o | o in ch && o != it && o.deleted;
      HasLengthIn(b, key, i);
      DeadParts(ch, it, others);
      rest := SplitSame(it, k, b, key, i);
      CutDead(ch, i, rest, was, k, others);
    }

    /** Cuts a block; the same ids are deleted, and of a key only one entry lives. */
    method SplitLives(it: Item, k: nat, ghost b: Branch, ghost key: Option<string>, ghost i: nat)
      returns (rest: Item)
      requires Holds(b) && i < |b.Chain(key)| && b.Chain(key)[i] == it && 0 < k < it.len
      modifies blocks, it`len, it`content, b.items`left, b.items`right, b`start, b`entries, b`chains, b`items, b`lost
      ensures Holds(b) && fresh(rest) && blocks.stored == old(blocks.stored) + {rest}
      ensures blocks.known == old(blocks.known)
      ensures b.items == old(b.items) + {rest} && ExactCut(b, key, IdAfter(it.id, k))
      ensures rest.deleted == it.deleted
      ensures b.chains == old(b.chains)[key := Put(old(b.Chain(key)), i, rest)]
      ensures IsCut(old(ToSpans(b.Chain(key))), i, k, ToSpans(b.Chain(key)))
      ensures it.ToSpan() == CutLeft(old(it.ToSpan()), k) && rest.ToSpan() == CutRight(old(it.ToSpan()), k)
      ensures old(b.Counted(kind)) ==> b.Counted(kind)
      ensures old(OneLives(b.Chain(key))) ==> OneLives(b.Chain(key))
      ensures DeadIds(b.Chain(key)) == old(DeadIds(b.Chain(key)))
    {
      hide Branch.Counted, Holds, ToSpans, IsCut, ExactCut, OnlyLastLives, DeadIds, Put;
      ghost var ch := b.Chain(key);
      ghost var one := OneLives(ch);
      HasLengthIn(b, key, i);
      if one { DeadIfLong(ch, it); }
      rest := SplitDead(it, k, b, key, i);
      if one { CutOneLives(ch, i, rest); }
    }

    /** And the last entry of a key is as it was. */
    method SplitTop(it: Item, k: nat, ghost b: Branch, ghost key: Option<string>, ghost i: nat)
      returns (rest: Item)
      requires Holds(b) && i < |b.Chain(key)| && b.Chain(key)[i] == it && 0 < k < it.len
      modifies blocks, it`len, it`content, b.items`left, b.items`right, b`start, b`entries, b`chains, b`items, b`lost
      ensures Holds(b) && fresh(rest) && blocks.stored == old(blocks.stored) + {rest}
      ensures blocks.known == old(blocks.known)
      ensures b.items == old(b.items) + {rest} && ExactCut(b, key, IdAfter(it.id, k))
      ensures rest.deleted == it.deleted
      ensures b.chains == old(b.chains)[key := Put(old(b.Chain(key)), i, rest)]
      ensures IsCut(old(ToSpans(b.Chain(key))), i, k, ToSpans(b.Chain(key)))
      ensures it.ToSpan() == CutLeft(old(it.ToSpan()), k) && rest.ToSpan() == CutRight(old(it.ToSpan()), k)
      ensures old(b.Counted(kind)) ==> b.Counted(kind)
      ensures old(OneLives(b.Chain(key))) ==>
        OneLives(b.Chain(key)) && TopOf(b.Chain(key)) == old(TopOf(b.Chain(key)))
      ensures DeadIds(b.Chain(key)) == old(DeadIds(b.Chain(key)))
    {
      hide Branch.Counted, Holds, ToSpans, IsCut, ExactCut, OneLives, DeadIds, Put, Branch.Valid;
      ghost var ch := b.Chain(key);
      ghost var one, top, was := OneLives(ch), TopOf(ch), it.ToSpan();
      HasLengthIn(b, key, i);
      if one {
        DeadIfLong(ch, it);
        TopIs(ch, i);
      }
      rest := SplitLives(it, k, b, key, i);
      if one { CutTop(ch, i, rest, was, k, top); }
    }

    /** Cuts the block that contains `id` so that its first part has `k` units. */
    method SplitAt(it: Item, k: nat, ghost b: Branch, ghost key: Option<string>)
      returns (rest: Item, ghost i: nat)
      requires Holds(b) && it in b.Chain(key) && 0 < k < it.len
      modifies blocks, b.items`len, b.items`content, b.items`left, b.items`right
      modifies b`start, b`entries, b`chains, b`items, b`lost
      ensures Holds(b) && it in b.Chain(key) && rest in b.Chain(key)
      ensures OnlyCuts(b, key) && ExactCut(b, key, IdAfter(it.id, k))
      ensures forall o :: o in old(b.Chain(key)) ==> o in b.Chain(key)
      ensures i < |old(b.Chain(key))| && old(b.Chain(key))[i] == it
      ensures IsCut(old(ToSpans(b.Chain(key))), i, k, ToSpans(b.Chain(key)))
      ensures it.ToSpan() == CutLeft(old(it.ToSpan()), k) && rest.ToSpan() == CutRight(old(it.ToSpan()), k)
      ensures forall o :: o in old(b.Chain(key)) && o != it ==> o.len == old(o.len)
    {
      hide CleanAt, ShownAll, TopOf, OneLives, ExactCut, DeadIds;
      hide Branch.Totals, Branch.Valid, Put, ToSpans, BlockStore.Valid, Content.Cut, Content.Length16, IsCut, Cut, Pos;
      b.LinkedChain(key);
      ghost var ch := b.Chain(key);
      i := Pos(ch, it);
      rest := SplitTop(it, k, b, key, i);
      PutHas(ch, i, rest);
    }

    /** A block that was looked up is in the chain. */
    lemma LookedUp(id: ID, it: Item?, b: Branch, key: Option<string>)
      requires Holds(b) && OnlyIn(id, b.Chain(key))
      requires it != null ==> it in blocks.stored && it.Has(id)
      requires it == null ==> forall o :: o in blocks.stored ==> !o.Has(id)
      ensures if it == null then id !in blocks.known && BlockOf(ToSpans(b.Chain(key)), id) == -1
        else
          var j := BlockOf(ToSpans(b.Chain(key)), id);
          && id in blocks.known && j >= 0 && b.Chain(key)[j] == it && it.HasLength()
          && forall i :: 0 <= i < |b.Chain(key)| && b.Chain(key)[i] == it ==> i == j
    {
      hide Branch.Valid, ToSpans, Linked;
      b.LinkedChain(key);
      var ch := b.Chain(key);
      BlockOfStored(blocks, ch, id, it);
      var j := BlockOf(ToSpans(ch), id);
      if it == null {
        assert !blocks.Stored(id);
      } else {
        Unique(ch, j);
      }
    }

    /** The block that ends with `id`; it is cut if it goes on after that. */
    method BlockEnding(id: ID, ghost b: Branch, ghost key: Option<string>) returns (it: Item?)
      requires Holds(b) && OnlyIn(id, b.Chain(key))
      modifies blocks, b.items`len, b.items`content, b.items`left, b.items`right
      modifies b`start, b`entries, b`chains, b`items, b`lost
      ensures Holds(b) && OnlyCuts(b, key) && SameUnits(b, key, {IdAfter(id, 1)})
      ensures fresh(b.items - old(b.items)) && fresh(blocks.stored - old(blocks.stored))
      ensures blocks.known == old(blocks.known)
      ensures forall o :: o in old(b.Chain(key)) ==> o in b.Chain(key)
      ensures ToSpans(b.Chain(key)) == CleanEnd(old(ToSpans(b.Chain(key))), id)
      ensures if it == null then id !in blocks.known else id in blocks.known && it in b.Chain(key) && it.Has(id)
      ensures it != null ==> it.LastId() == id
    {
      hide CleanAt, ShownAll, TopOf, OneLives;
      hide Branch.Totals, Branch.Valid, ToSpans, BlockStore.Valid, Content.Cut, Content.Length16, BlockOf, Cut, Linked;
      ghost var ch := b.Chain(key);
      it := blocks.GetItem(id);
      LookedUp(id, it, b, key);
      if it != null && id != it.LastId() {
        ghost var j := BlockOf(ToSpans(ch), id);
        var rest, i := SplitAt(it, id.clock - it.id.clock + 1, b, key);
        assert i == j;
      }
    }

    /** The block that starts with `id`; a block that starts earlier is cut. */
    method BlockStarting(id: ID, ghost b: Branch, ghost key: Option<string>) returns (it: Item?)
      requires Holds(b) && OnlyIn(id, b.Chain(key))
      modifies blocks, b.items`len, b.items`content, b.items`left, b.items`right
      modifies b`start, b`entries, b`chains, b`items, b`lost
      ensures Holds(b) && OnlyCuts(b, key) && SameUnits(b, key, {id})
      ensures forall o :: o in old(b.Chain(key)) ==> o in b.Chain(key)
      ensures ToSpans(b.Chain(key)) == CleanStart(old(ToSpans(b.Chain(key))), id)
      ensures forall o :: o in old(b.Chain(key)) && !old(o.Has(id)) ==> o.len == old(o.len)
      ensures if it == null then id !in blocks.known else it in b.Chain(key) && it.Has(id) && it.id == id
    {
      hide CleanAt, ShownAll, TopOf, OneLives;
      hide Branch.Totals, Branch.Valid, ToSpans, BlockStore.Valid, Content.Cut, Content.Length16, BlockOf, Cut, Linked;
      ghost var ch := b.Chain(key);
      it := blocks.GetItem(id);
      LookedUp(id, it, b, key);
      if it != null && id != it.id {
        ghost var j := BlockOf(ToSpans(ch), id);
        var rest, i := SplitAt(it, id.clock - it.id.clock, b, key);
        assert i == j;
        it := rest;
      }
    }

    /** A block that was looked up is where the scan expects it. */
    lemma Located(b: Branch, key: Option<string>, id: ID, it: Item?)
      requires Holds(b)
      requires IsFor(it, Some(id), b.Chain(key))
      ensures it == At(b.Chain(key), BlockOf(ToSpans(b.Chain(key)), id))
    {
      hide Branch.Valid, ToSpans, BlockOf;
      b.LinkedChain(key);
      assert it == null ==> forall o :: o in blocks.stored ==> !o.Has(id);
      BlockOfStored(blocks, b.Chain(key), id, it);
    }

    /** The neighbours that were looked up are where the scan expects them. */
    lemma SeatsFound(left: Item?, right: Item?, x: Span, b: Branch, key: Option<string>)
      requires Holds(b) && Found(left, right, x, b.Chain(key))
      ensures Seats(b.Chain(key), left, right, x) && b.Valid()
      ensures left != null ==> left in b.Chain(key) && left.parent == b && left.parentSub == key
      ensures right != null ==> right in b.Chain(key) && right.parent == b && right.parentSub == key
    {
      hide Branch.Valid, ToSpans, Linked, BlockOf;
      b.LinkedChain(key);
      var ch := b.Chain(key);
      if x.origin.Some? { Located(b, key, x.origin.value, left); }
      forall k | 0 <= k < |ch| ensures ch[k] == right <==> x.rightOrigin == Some(ch[k].id) {
        if x.rightOrigin == Some(ch[k].id) {
          assert ch[k].HasLength() && ch[k].Has(ch[k].id);
          if right != null && right != ch[k] {
            assert right.HasLength() && right.Has(ch[k].id);
            NotInBoth(blocks, ch[k], right, ch[k].id);
          }
        }
      }
    }

    /** The right origin of `x` is not in the block that ends with its origin. */
    lemma NotThere(left: Item?, x: Span, b: Branch, key: Option<string>, bs: seq<Span>)
      requires Holds(b) && IsFor(left, x.origin, b.Chain(key)) && OriginsApart(bs, x)
      requires ToSpans(b.Chain(key)) == if x.origin.Some? then CleanEnd(bs, x.origin.value) else bs
      ensures x.rightOrigin.Some? && left != null ==> !left.Has(x.rightOrigin.value)
    {
      hide Branch.Valid, ToSpans, BlockStore.Valid, Linked, BlockOf, CleanEnd;
      b.LinkedChain(key);
      if x.rightOrigin.Some? && left != null && left.Has(x.rightOrigin.value) {
        Located(b, key, x.origin.value, left);
        Located(b, key, x.rightOrigin.value, left);
      }
    }

    /** `it` is the block with `id`, or no block has it. */
    ghost predicate IsFor(it: Item?, id: Option<ID>, ch: seq<Item>)
      reads this`blocks, blocks`known
      reads (if it == null then {} else {it})`id, (if it == null then {} else {it})`len
    {
      if it == null then id.Some? ==> id.value !in blocks.known else id.Some? && it in ch && it.Has(id.value)
    }

    /** `it` is the block that starts with `id`, or no block has it. */
    ghost predicate StartsAt(it: Item?, id: Option<ID>, ch: seq<Item>)
      reads this`blocks, blocks`known
      reads (if it == null then {} else {it})`id
    {
      if it == null then id.Some? ==> id.value !in blocks.known else it in ch && id == Some(it.id)
    }

    /** The two blocks are those with the origins of `x`. */
    ghost predicate Found(left: Item?, right: Item?, x: Span, ch: seq<Item>)
      reads this`blocks, blocks`known
      reads (if left == null then {} else {left})`id, (if left == null then {} else {left})`len
      reads (if right == null then {} else {right})`id
    {
      IsFor(left, x.origin, ch) && StartsAt(right, x.rightOrigin, ch)
    }

    method FindLeft(id: Option<ID>, ghost b: Branch, ghost key: Option<string>) returns (left: Item?)
      requires Holds(b) && (id.Some? ==> OnlyIn(id.value, b.Chain(key)))
      modifies blocks, b.items`len, b.items`content, b.items`left, b.items`right
      modifies b`start, b`entries, b`chains, b`items, b`lost
      ensures Holds(b) && OnlyCuts(b, key) && SameUnits(b, key, CutAfter(id))
      ensures ToSpans(b.Chain(key)) ==
        if id.Some? then CleanEnd(old(ToSpans(b.Chain(key))), id.value) else old(ToSpans(b.Chain(key)))
      ensures IsFor(left, id, b.Chain(key))
      ensures left != null ==> left.LastId() == id.value
    {
      hide CleanAt, ShownAll, TopOf, OneLives;
      hide Branch.Totals, Branch.Valid, ToSpans, BlockStore.Valid, CleanEnd, Linked, OnlyIn;
      if id.None? { return null; }
      left := BlockEnding(id.value, b, key);
    }

    method FindRight(id: Option<ID>, ghost left: Item?, ghost b: Branch, ghost key: Option<string>)
      returns (right: Item?)
      requires Holds(b) && (id.Some? ==> OnlyIn(id.value, b.Chain(key)))
      requires left != null ==> left in b.Chain(key) && (id.Some? ==> !left.Has(id.value))
      modifies blocks, b.items`len, b.items`content, b.items`left, b.items`right
      modifies b`start, b`entries, b`chains, b`items, b`lost
      ensures Holds(b) && OnlyCuts(b, key) && SameUnits(b, key, CutBefore(id))
      ensures ToSpans(b.Chain(key)) ==
        if id.Some? then CleanStart(old(ToSpans(b.Chain(key))), id.value) else old(ToSpans(b.Chain(key)))
      ensures StartsAt(right, id, b.Chain(key))
      ensures left != null ==> left in b.Chain(key) && left.len == old(left.len)
    {
      hide CleanAt, ShownAll, TopOf, OneLives;
      hide Branch.Totals, Branch.Valid, ToSpans, BlockStore.Valid, CleanStart, Linked, OnlyIn;
      if id.None? { return null; }
      right := BlockStarting(id.value, b, key);
    }

    /** The neighbours that the author of `x` saw. */
    method Lookup(x: Span, ghost b: Branch, ghost key: Option<string>) returns (left: Item?, right: Item?)
      requires Holds(b) && OriginsApart(ToSpans(b.Chain(key)), x)
      requires x.origin.Some? ==> OnlyIn(x.origin.value, b.Chain(key))
      requires x.rightOrigin.Some? ==> OnlyIn(x.rightOrigin.value, b.Chain(key))
      modifies blocks, b.items`len, b.items`content, b.items`left, b.items`right
      modifies b`start, b`entries, b`chains, b`items, b`lost
      ensures Holds(b) && OnlyCuts(b, key) && SameUnits(b, key, CutsFor(x)) && Found(left, right, x, b.Chain(key))
      ensures fresh(b.items - old(b.items)) && fresh(blocks.stored - old(blocks.stored))
      ensures ToSpans(b.Chain(key)) == Prepare(old(ToSpans(b.Chain(key))), x)
    {
      hide CleanAt, ShownAll, Item.Has, StartsAt, TopOf, OneLives, Branch.Counted, Branch.Chain;
      hide Branch.Totals, Holds, Branch.Valid, OriginsApart, ToSpans, CleanEnd, CleanStart, BlockOf;
      ghost var bs := ToSpans(b.Chain(key));
      left := FindLeft(x.origin, b, key);
      NotThere(left, x, b, key, bs);
      if x.origin.Some? && x.rightOrigin.Some? { CleanEndKeeps(bs, x.origin.value, x.rightOrigin.value); }
      right := FindRight(x.rightOrigin, left, b, key);
    }

    lemma NotInChains(x: Item, b: Branch, key: Option<string>)
      requires Holds(b) && x !in b.items
      ensures x !in b.Chain(None) && x !in b.Chain(key)
    {
      hide Branch.Valid, BlockStore.Valid;
      b.LinkedChain(None);
      b.LinkedChain(key);
    }

    /** Sets the neighbours of `x`; its branch is theirs, if it does not know one. */
    method SetNeighbours(x: Item, left: Item?, right: Item?, ghost b: Branch, ghost key: Option<string>)
      requires Holds(b) && x !in b.items && x !in blocks.stored
      requires Found(left, right, x.ToSpan(), b.Chain(key))
      requires x.parent != null ==> x.parent == b && x.parentSub == key
      modifies x`left, x`right, x`parent, x`parentSub
      ensures Holds(b) && x.left == left && x.right == right && Found(x.left, x.right, x.ToSpan(), b.Chain(key))
      ensures x.parent == if old(x.parent) == b || left != null || right != null then b else null
      ensures x.parent != null ==> x.parentSub == key
      ensures b.Counted(kind) == old(b.Counted(kind)) && OneLives(b.Chain(key)) == old(OneLives(b.Chain(key)))
      ensures TopOf(b.Chain(key)) == old(TopOf(b.Chain(key))) && DeadIds(b.Chain(key)) == old(DeadIds(b.Chain(key)))
      ensures ShownAll(b.Chain(key)) == old(ShownAll(b.Chain(key)))
    {
      hide Branch.Counted, OneLives, TopOf, DeadIds, ShownAll;
      hide Branch.Valid, BlockStore.Valid, Branch.Sound, OnlyIn, Seats, Linked;
      SeatsFound(left, right, x.ToSpan(), b, key);
      NotInChains(x, b, key);
      if x.parent == null {
        if left != null && left.parent != null {
          x.parent, x.parentSub := left.parent, left.parentSub;
        } else if right != null && right.parent != null {
          x.parent, x.parentSub := right.parent, right.parentSub;
        }
      }
      x.left, x.right := left, right;
    }

    /** Gives `x` the neighbours that its author saw, and takes the branch from them if need be. */
    method Repair(x: Item, ghost b: Branch, ghost key: Option<string>)
      requires Holds(b) && x !in b.items && x !in blocks.stored
      requires x.parent != null ==> x.parent == b && x.parentSub == key
      requires x.origin.Some? ==> OnlyIn(x.origin.value, b.Chain(key))
      requires x.rightOrigin.Some? ==> OnlyIn(x.rightOrigin.value, b.Chain(key))
      requires OriginsApart(ToSpans(b.Chain(key)), x.ToSpan())
      modifies x`left, x`right, x`parent, x`parentSub
      modifies blocks, b.items`len, b.items`content, b.items`left, b.items`right
      modifies b`start, b`entries, b`chains, b`items, b`lost
      ensures Holds(b) && OnlyCuts(b, key) && SameUnits(b, key, CutsFor(x.ToSpan()))
      ensures Found(x.left, x.right, x.ToSpan(), b.Chain(key))
      ensures ToSpans(b.Chain(key)) == Prepare(old(ToSpans(b.Chain(key))), x.ToSpan())
      ensures x.parent == if old(x.parent) == b || x.left != null || x.right != null then b else null
      ensures x.parent != null ==> x.parentSub == key
    {
      hide CleanAt, ShownAll, TopOf, OneLives, BlockStore.Exact, Holds;
      hide Branch.Totals, Branch.Counted, Branch.Valid, BlockStore.Valid, OriginsApart, ToSpans, OnlyIn, Prepare, Seats;
      hide Linked;
      hide Found, IsFor, StartsAt, BlockStore.Keeps, Item.HasLength, Branch.Sound, DeadIds, AllClean;
      var left, right := Lookup(x.ToSpan(), b, key);
      NotInChains(x, b, key);
      SetNeighbours(x, left, right, b, key);
    }

    method TrimFields(x: Item, offset: nat, left: Item?, ghost ch: seq<Item>)
      requires x.content.CanBeCut() && 0 < offset < x.len == x.content.Length16() && x !in ch
      requires StartsAt(x.right, x.rightOrigin, ch)
      requires left != null ==> left in ch && left.len > 0 && left.LastId() == IdAfter(x.id, offset - 1)
      modifies x`id, x`left, x`origin, x`content, x`len
      ensures x.HasLength() && x.content == old(x.content).Cut(offset).1 && x.left == left
      ensures x.ToSpan() == CutRight(old(x.ToSpan()), offset).(origin := x.origin)
      ensures x.origin == if left == null then None else Some(IdAfter(old(x.id), offset - 1))
      ensures Found(x.left, x.right, x.ToSpan(), ch)
    {
      hide Content.Cut, Content.Length16;
      CutLengths(x.content, offset);
      x.left, x.origin := left, if left == null then None else Some(left.LastId());
      x.id, x.content, x.len := IdAfter(x.id, offset), x.content.Cut(offset).1, x.len - offset;
    }

    /** The first units of a block were left out; its origin is the last of them, if that is known. */
    twostate predicate Shortened(x: Item, offset: nat)
      requires old(x.content.CanBeCut() && 0 < offset < x.len == x.content.Length16())
      reads x`id, x`len, x`origin, x`rightOrigin, x`content
    {
      var prev := old(x.ToSpan()).IdAt(offset - 1);
      && x.HasLength() && x.content == old(x.content).Cut(offset).1
      && x.ToSpan() == CutRight(old(x.ToSpan()), offset).(origin := x.origin)
      && x.origin == if prev in old(blocks.known) then Some(prev) else None
    }

    /** Leaves out the first `offset` units of `x`, which are already known. */
    method Trim(x: Item, offset: nat, ghost b: Branch, ghost key: Option<string>)
      requires Holds(b) && x !in b.items && x !in blocks.stored
      requires Found(x.left, x.right, x.ToSpan(), b.Chain(key))
      requires x.content.CanBeCut() && 0 < offset < x.len == x.content.Length16()
      requires OnlyIn(x.ToSpan().IdAt(offset - 1), b.Chain(key))
      modifies x`id, x`left, x`origin, x`content, x`len
      modifies blocks, b.items`len, b.items`content, b.items`left, b.items`right
      modifies b`start, b`entries, b`chains, b`items, b`lost
      ensures Holds(b) && OnlyCuts(b, key) && SameUnits(b, key, {IdAfter(old(x.id), offset)})
      ensures Found(x.left, x.right, x.ToSpan(), b.Chain(key))
      ensures ToSpans(b.Chain(key)) == CleanEnd(old(ToSpans(b.Chain(key))), old(x.ToSpan()).IdAt(offset - 1))
      ensures Shortened(x, offset)
    {
      hide CleanAt, ShownAll, BlockStore.Exact, TopOf, OneLives, Branch.Counted, OnlyCuts, SameUnits, IsFor;
      hide Branch.Totals, Branch.Valid, ToSpans, BlockStore.Valid, CleanEnd, Linked, OnlyIn, Content.Cut;
      hide Content.Length16, BlockStore.Keeps, Branch.Sound;
      var left := BlockEnding(IdAfter(x.id, offset - 1), b, key);
      NotInChains(x, b, key);
      TrimFields(x, offset, left, b.Chain(key));
    }

    // ----- integration

    /** Moves `left` to the block after which `x` goes. */
    method Position(x: Item)
      requires x.parent != null && Holds(x.parent) && x !in x.parent.items
      requires x.Seated(x.parent.Chain(x.parentSub))
      modifies x`left
      ensures x.left == At(x.parent.Chain(x.parentSub),
        BlockPlace(ToSpans(x.parent.Chain(x.parentSub)), x.ToSpan()))
    {
      hide Branch.Valid, BlockStore.Valid, ToSpans, BlockScan, Linked;
      x.parent.LinkedChain(x.parentSub);
      if x.DetectConflict() {
        x.ResolveConflict(blocks);
      } else {
        NoConflict(x.left, x.right, x.ToSpan(), x.parent.Chain(x.parentSub));
      }
    }

    /** Links `x` after the block that `left` names. */
    method Relink(x: Item, ghost c: int)
      requires x.parent != null && x.parent.Valid() && x !in x.parent.items
      requires -1 <= c < |x.parent.Chain(x.parentSub)| && x.left == At(x.parent.Chain(x.parentSub), c)
      modifies x`right, x.parent.items`left, x.parent.items`right
      modifies x.parent`start, x.parent`entries, x.parent`chains, x.parent`items
      ensures x.parent.Valid() && x.parent.items == old(x.parent.items) + {x}
      ensures x.parent.chains ==
        old(x.parent.chains)[x.parentSub := Put(old(x.parent.Chain(x.parentSub)), c, x)]
      ensures x.right == At(old(x.parent.Chain(x.parentSub)), c + 1)
    {
      hide Branch.Valid, Put;
      if x.left != null {
        x.parent.Neighbours(x.parentSub, c);
        x.right := x.left.right;
      } else if x.parentSub.Some? {
        x.right := x.parent.FirstOf(x.parentSub.value);
      } else {
        x.parent.StartIsFirst();
        x.right := x.parent.start;
      }
      x.parent.Attach(x, c);
    }

    /** The lengths of the branch are right, but for a new block of its sequence, which is not counted yet. */
    ghost predicate CountedBut(x: Item, main: seq<Item>)
      requires x.parent != null
      reads x`parent, x`parentSub, x.parent`chains, x.parent`blockLen, x.parent`contentLen, x.parent`lost
      reads main`deleted, main`countable, main`len, main`content
      reads x.parent.Chain(None)`deleted, x.parent.Chain(None)`countable
      reads x.parent.Chain(None)`len, x.parent.Chain(None)`content
    {
      if x.parentSub.Some? then x.parent.Counted(kind) else x.parent.Totals(main, kind)
    }

    /** A new last entry of a key deletes the one before it. */
    method Supersede(x: Item, ghost main: seq<Item>)
      requires x.parent != null && x.parent.Valid() && x in x.parent.Chain(x.parentSub)
      requires x.left != null ==> x.left in x.parent.Chain(x.parentSub)
      requires CountedBut(x, main)
      modifies this`deleteSet, (if x.left == null then {} else {x.left})`deleted
      modifies x.parent`blockLen, x.parent`contentLen
      ensures x.left != null ==>
        x.left.deleted == (old(x.left.deleted) || (x.right == null && x.parentSub.Some?))
      ensures CountedBut(x, main)
      ensures deleteSet == old(deleteSet) + Replaced(x, x.parent.Chain(x.parentSub))
    {
      hide Branch.Valid, Branch.Counted, Branch.Totals, Linked;
      x.parent.LinkedChain(x.parentSub);
      if x.right == null && x.parentSub.Some? && x.left != null {
        var done := Delete(x.left);
      }
    }

    /** Adds the length of a new block to its branch. */
    method Count(x: Item, ghost ch: seq<Item>, ghost c: int)
      requires x.parent != null && -1 <= c < |ch|
      requires x.parentSub.None? ==> x.parent.Chain(None) == Put(ch, c, x) && x.parent.Totals(ch, kind)
      requires x.parentSub.Some? ==> x.parent.Counted(kind)
      modifies x.parent`blockLen, x.parent`contentLen
      ensures x.parent.Counted(kind)
    {
      hide Weights, Sum, Put;
      PutWeights(ch, c, x, Utf16);
      PutWeights(ch, c, x, kind);
      if x.parentSub.None? && !x.deleted {
        if x.countable {
          x.parent.blockLen := x.parent.blockLen + x.len;
          x.parent.contentLen := x.parent.contentLen + x.ContentLen(kind);
        }
      }
    }

    /** Links `x` in, deletes what it replaces, and counts it. */
    method Join(x: Item, ghost c: int)
      requires x.parent != null && x.parent.Valid() && x.parent.Counted(kind) && x !in x.parent.items
      requires -1 <= c < |x.parent.Chain(x.parentSub)| && x.left == At(x.parent.Chain(x.parentSub), c)
      modifies this`deleteSet, x`right, x.parent.items`left, x.parent.items`right, x.parent.items`deleted
      modifies x.parent`start, x.parent`entries, x.parent`chains, x.parent`items
      modifies x.parent`blockLen, x.parent`contentLen
      ensures x.parent.Valid() && x.parent.Counted(kind) && x.parent.items == old(x.parent.items) + {x}
      ensures x.parent.chains ==
        old(x.parent.chains)[x.parentSub := Put(old(x.parent.Chain(x.parentSub)), c, x)]
      ensures x.right == At(old(x.parent.Chain(x.parentSub)), c + 1)
      ensures Superseded(x, old(x.parent.items) + {x}, old(x.parent.Chain(x.parentSub)))
    {
      hide Branch.Valid, Put, Branch.Totals, Linked, IdsOf;
      ghost var ch, main := x.parent.Chain(x.parentSub), x.parent.Chain(None);
      x.parent.LinkedChain(x.parentSub);
      x.parent.LinkedChain(None);
      Relink(x, c);
      PutHas(ch, c, x);
      Supersede(x, main);
      Count(x, ch, c);
    }

    /** What is done to a block once it is stored: it may have been deleted before it came. */
    method Finish(x: Item)
      requires x.parent != null && x.parent.Valid() && x in x.parent.Chain(x.parentSub)
      requires x.parent.Counted(kind) && x.countable == x.content.IsCountable() && x.parent.item != x
      modifies this`deleteSet, x`deleted, x.parent`blockLen, x.parent`contentLen
      ensures x.parent.Counted(kind)
      ensures x.deleted == (old(x.deleted) || x.content.Deleted? || HolderDeleted(x.parent) ||
                            (x.parentSub.Some? && x.right != null))
      ensures !old(x.deleted) ==> deleteSet == old(deleteSet) + if x.deleted then IdsOf(x.ToSpan()) else {}
    {
      hide Weights, Branch.Valid, Branch.Counted, Linked;
      if x.content.Deleted? {
        deleteSet := deleteSet + IdsOf(x.ToSpan());
        MarkDeleted(x);
      }
      if NeedsDeletion(x) {
        var done := Delete(x);
      }
    }

    /** Content that is already gone was never counted. */
    method MarkDeleted(x: Item)
      requires x.parent != null && x.parent.Counted(kind) && !x.countable
      modifies x`deleted
      ensures x.deleted && x.parent.Counted(kind)
    {
      hide Weights;
      ghost var ch := x.parent.Chain(None);
      ghost var w, u := Weights(ch, Utf16), Weights(ch, kind);
      x.deleted := true;
      WeightsAre(ch, Utf16, w);
      WeightsAre(ch, kind, u);
    }

    /** Stores a block that is linked in. */
    method Keep(x: Item)
      requires blocks.Valid() && blocks.Exact() && x !in blocks.stored && x.HasLength()
      requires forall o :: o in blocks.stored ==> Disjoint(x.id, x.len, o.id, o.len)
      requires x.parent != null && x.parent.Valid() && x in x.parent.Chain(x.parentSub) && AllOf(x.parent)
      requires blocks.Keeps(x.parent.items - {x})
      modifies this`insertSet, blocks
      ensures Holds(x.parent) && blocks.known == old(blocks.known) + x.Ids()
      ensures blocks.stored == old(blocks.stored) + {x} && insertSet == old(insertSet) + IdsOf(x.ToSpan())
    {
      hide Branch.Valid, BlockStore.Valid, Disjoint, Item.Ids, BlockStore.Exact;
      x.parent.LinkedChain(x.parentSub);
      insertSet := insertSet + IdsOf(x.ToSpan());
      blocks.Push(x);
    }

    /** Stores a block that is linked in, and deletes it if need be. */
    method Store(x: Item)
      requires blocks.Valid() && blocks.Exact() && x !in blocks.stored && x.HasLength()
      requires forall o :: o in blocks.stored ==> Disjoint(x.id, x.len, o.id, o.len)
      requires x.parent != null && x.parent.Valid() && x in x.parent.Chain(x.parentSub) && AllOf(x.parent)
      requires blocks.Keeps(x.parent.items - {x})
      requires x.parent.Counted(kind) && x.countable == x.content.IsCountable() && x.parent.item != x
      modifies this`deleteSet, this`insertSet, blocks, x`deleted, x.parent`blockLen, x.parent`contentLen
      ensures Holds(x.parent) && x.parent.Counted(kind)
      ensures blocks.known == old(blocks.known) + x.Ids()
      ensures blocks.stored == old(blocks.stored) + {x} && insertSet == old(insertSet) + IdsOf(x.ToSpan())
      ensures x.deleted == (old(x.deleted) || x.content.Deleted? || HolderDeleted(x.parent) ||
                            (x.parentSub.Some? && x.right != null))
      ensures !old(x.deleted) ==> deleteSet == old(deleteSet) + if x.deleted then IdsOf(x.ToSpan()) else {}
    {
      hide Branch.Valid, Branch.Totals, Disjoint, NeedsDeletion, Item.Ids, BlockStore.Exact, BlockStore.Keeps;
      hide Item.HasLength, IdsOf, Holds, BlockStore.Valid;
      Keep(x);
      Finish(x);
    }

    /** The ids of the entry before `x`, if it was alive and `x` replaces it. */
    twostate function Replaced(x: Item, ch: seq<Item>): set<ID>
      reads x`left, x`right, x`parentSub, ch`id, ch`len, ch`origin, ch`rightOrigin
    {
      var l := x.left;
      if l in ch && x.right == null && x.parentSub.Some? && !old(l.deleted) then IdsOf(l.ToSpan()) else {}
    }

    /** What was inserted and deleted by putting `x` into the chain `ch` is recorded. */
    twostate predicate Records(x: Item, ch: seq<Item>)
      reads this`insertSet, this`deleteSet, x`left, x`right, x`parentSub, x`deleted
      reads x`id, x`len, x`origin, x`rightOrigin, ch`id, ch`len, ch`origin, ch`rightOrigin
    {
      && (x.left != null ==> x.left in ch) && insertSet == old(insertSet) + IdsOf(x.ToSpan())
      && deleteSet == old(deleteSet) + (if x.deleted then IdsOf(x.ToSpan()) else {}) + Replaced(x, ch)
    }

    /** Exactly `x` is recorded as inserted, and exactly what is deleted of the chain since then as deleted. */
    twostate predicate Noted(x: Item, b: Branch, key: Option<string>)
      reads this`insertSet, this`deleteSet, x`id, x`len, x`origin, x`rightOrigin, x`deleted
      reads b`chains, b.Chain(key)`id, b.Chain(key)`len, b.Chain(key)`deleted
    {
      && insertSet == old(insertSet) + IdsOf(x.ToSpan())
      && (forall id :: id in deleteSet <==>
            id in old(deleteSet) || (id in DeadIds(b.Chain(key)) && id !in old(DeadIds(b.Chain(key)))))
      && (key.None? ==> Joins(old(DeadIds(b.Chain(key))), x, DeadIds(b.Chain(key))))
    }

    /** A block without a branch is recorded as inserted and deleted. */
    twostate predicate RecordsRange(x: Item, offset: nat)
      reads this`insertSet, this`deleteSet, x`id, x`len
    {
      var gc := IdsOf(GcRange(x.id, x.len, offset));
      insertSet == old(insertSet) + gc && deleteSet == old(deleteSet) + gc
    }

    /** Nothing was deleted but the entry that `x` replaces. */
    twostate predicate Supersedes(x: Item, items: set<Item>)
      reads items`deleted, x`left, x`right, x`parentSub
    {
      forall o :: o in items ==>
        o.deleted == (old(o.deleted) || (o == x.left && x.right == null && x.parentSub.Some?))
    }

    /** Exactly the entry that `x` replaces was deleted, and that is recorded. */
    twostate predicate Superseded(x: Item, items: set<Item>, ch: seq<Item>)
      reads this`deleteSet, x`left, x`right, x`parentSub, items`deleted
      reads ch`id, ch`len, ch`origin, ch`rightOrigin
    {
      && Supersedes(x, items) && deleteSet == old(deleteSet) + Replaced(x, ch)
      && (x.left != null ==> x.left in ch)
    }

    /** A new block is where the scan says, between its neighbours. */
    twostate predicate InPlace(x: Item, b: Branch, key: Option<string>)
      reads x`id, x`len, x`origin, x`rightOrigin, x`left, x`right, b`chains
    {
      var ch := old(b.Chain(key));
      var c := old(PlaceIn(ch, x.ToSpan()));
      b.chains == old(b.chains)[key := Put(ch, c, x)] && x.left == At(ch, c) && x.right == At(ch, c + 1)
    }

    /** Finds the place of a new block, and links it in there. */
    method Place(x: Item)
      requires x.parent != null && Holds(x.parent) && x.parent.Counted(kind) && x !in x.parent.items
      requires x.Seated(x.parent.Chain(x.parentSub))
      modifies this`deleteSet, x`left, x`right
      modifies x.parent.items`left, x.parent.items`right, x.parent.items`deleted
      modifies x.parent`start, x.parent`entries, x.parent`chains, x.parent`items
      modifies x.parent`blockLen, x.parent`contentLen
      ensures x.parent.Valid() && x.parent.Counted(kind) && x.parent.items == old(x.parent.items) + {x}
      ensures InPlace(x, x.parent, x.parentSub)
      ensures x in x.parent.Chain(x.parentSub)
      ensures deleteSet == old(deleteSet) + Replaced(x, old(x.parent.Chain(x.parentSub)))
      ensures Supersedes(x, old(x.parent.items) + {x})
    {
      hide Branch.Valid, BlockStore.Valid, BlockPlace, ToSpans, Put, Branch.Totals, Item.Seated, Item.HasLength;
      ghost var c := BlockPlace(ToSpans(x.parent.Chain(x.parentSub)), x.ToSpan());
      PutHas(x.parent.Chain(x.parentSub), c, x);
      Position(x);
      Join(x, c);
    }

    /** Puts a new block, which names its neighbours, into its branch. */
    method IntegrateInto(x: Item)
      requires x.parent != null && Holds(x.parent) && x.parent.Counted(kind) && x.parent.item != x
      requires x !in x.parent.items && x !in blocks.stored && x.HasLength()
      requires forall o :: o in blocks.stored ==> Disjoint(x.id, x.len, o.id, o.len)
      requires !x.deleted && x.countable == x.content.IsCountable()
      requires x.Seated(x.parent.Chain(x.parentSub))
      modifies this`deleteSet, this`insertSet, blocks, x`left, x`right, x`deleted
      modifies x.parent.items`left, x.parent.items`right, x.parent.items`deleted
      modifies x.parent`start, x.parent`entries, x.parent`chains, x.parent`items
      modifies x.parent`blockLen, x.parent`contentLen
      ensures Holds(x.parent) && x.parent.Counted(kind)
      ensures x.parent.items == old(x.parent.items) + {x} && blocks.stored == old(blocks.stored) + {x}
      ensures blocks.known == old(blocks.known) + x.Ids()
      ensures insertSet == old(insertSet) + IdsOf(x.ToSpan())
      ensures InPlace(x, x.parent, x.parentSub)
      ensures x.deleted == (x.content.Deleted? || HolderDeleted(x.parent) || (x.parentSub.Some? && x.right != null))
      ensures Supersedes(x, old(x.parent.items)) && Records(x, old(x.parent.Chain(x.parentSub)))
    {
      hide Branch.Counted, Item.Ids, BlockStore.Exact, Item.ToSpan, Replaced, HolderDeleted;
      hide Branch.Valid, BlockStore.Valid, BlockPlace, ToSpans, Put, Branch.Totals, Item.HasLength, Item.Seated;
      hide Disjoint, NeedsDeletion, IdsOf, BlockStore.Keeps;
      Place(x);
      assert old(x.parent.items) == x.parent.items - {x};
      Store(x);
    }

    /** Puts a new block in, and says which entry is then the last one. */
    method PutIn(x: Item)
      requires x.parent != null && Holds(x.parent) && x.parent.Counted(kind) && x.parent.item != x
      requires x !in x.parent.items && x !in blocks.stored && x.HasLength()
      requires forall o :: o in blocks.stored ==> Disjoint(x.id, x.len, o.id, o.len)
      requires !x.deleted && x.countable == x.content.IsCountable()
      requires x.Seated(x.parent.Chain(x.parentSub))
      modifies this`deleteSet, this`insertSet, blocks, x`left, x`right, x`deleted
      modifies x.parent.items`left, x.parent.items`right, x.parent.items`deleted
      modifies x.parent`start, x.parent`entries, x.parent`chains, x.parent`items
      modifies x.parent`blockLen, x.parent`contentLen
      ensures Holds(x.parent) && x.parent.Counted(kind)
      ensures x.parent.items == old(x.parent.items) + {x} && blocks.stored == old(blocks.stored) + {x}
      ensures blocks.known == old(blocks.known) + x.Ids()
      ensures insertSet == old(insertSet) + IdsOf(x.ToSpan())
      ensures x.parent.Chain(x.parentSub) ==
        Put(old(x.parent.Chain(x.parentSub)), old(PlaceIn(x.parent.Chain(x.parentSub), x.ToSpan())), x)
      ensures x.parentSub.Some? && old(OnlyLastLives(x.parent.Chain(x.parentSub))) ==>
        OnlyLastLives(x.parent.Chain(x.parentSub))
      ensures Fate(x, x.parent, x.parentSub) && KeepsTop(x, x.parent, x.parentSub)
      ensures Supersedes(x, old(x.parent.items)) && Records(x, old(x.parent.Chain(x.parentSub)))
    {
      hide Holds, Branch.Counted, Item.Ids, Item.ToSpan, BlockPlace, ToSpans, Put, Item.HasLength, Item.Seated;
      hide Disjoint, IdsOf, Records, EndsWith, PlaceIn;
      ghost var ch, c := x.parent.Chain(x.parentSub), PlaceIn(x.parent.Chain(x.parentSub), x.ToSpan());
      SeenBefore(x, x.parent, x.parentSub);
      HasLengths(x.parent, x.parentSub);
      IntegrateInto(x);
      PutTop(ch, c, x);
      if x.parentSub.Some? && old(OnlyLastLives(ch)) { LastLives(ch, c, x); }
    }

    /** Only the last entry of a key is left alive, whatever the order in which entries come. */
    method IntegrateEntry(x: Item)
      requires x.parent != null && Holds(x.parent) && x.parent.Counted(kind) && x.parent.item != x
      requires x !in x.parent.items && x !in blocks.stored && x.HasLength() && Unknown(x.ToSpan())
      requires !x.deleted && x.countable == x.content.IsCountable()
      requires x.Seated(x.parent.Chain(x.parentSub))
      modifies this`deleteSet, this`insertSet, blocks, x`left, x`right, x`deleted
      modifies x.parent.items`left, x.parent.items`right, x.parent.items`deleted
      modifies x.parent`start, x.parent`entries, x.parent`chains, x.parent`items
      modifies x.parent`blockLen, x.parent`contentLen
      ensures Holds(x.parent) && x.parent.Counted(kind) && x.parent.items == old(x.parent.items) + {x}
      ensures blocks.stored == old(blocks.stored) + {x} && blocks.known == old(blocks.known) + x.Ids()
      ensures insertSet == old(insertSet) + IdsOf(x.ToSpan())
      ensures ToSpans(x.parent.Chain(x.parentSub))
        == BlockIntegrate(old(ToSpans(x.parent.Chain(x.parentSub))), x.ToSpan())
      ensures x.parentSub.Some? && old(OnlyLastLives(x.parent.Chain(x.parentSub))) ==>
        OnlyLastLives(x.parent.Chain(x.parentSub))
      ensures Fate(x, x.parent, x.parentSub)
      ensures !EndsWith(x.parent.Chain(x.parentSub), x) ==>
        TopOf(x.parent.Chain(x.parentSub)) == old(TopOf(x.parent.Chain(x.parentSub)))
      ensures x.parent.Chain(x.parentSub) == Put(old(x.parent.Chain(x.parentSub)),
        BlockPlace(old(ToSpans(x.parent.Chain(x.parentSub))), x.ToSpan()), x)
      ensures Supersedes(x, old(x.parent.items)) && Records(x, old(x.parent.Chain(x.parentSub)))
    {
      hide Unknown, Branch.Sound, PutAfter, Item.Ids, BlockStore.Exact, Branch.Chained;
      hide Branch.Valid, BlockStore.Valid, BlockPlace, ToSpans, Put, Branch.Totals, Item.Seated, Branch.Counted;
      hide Disjoint, IdsOf, BlockStore.Keeps, Linked, EndsWith, TopOf, Records, Supersedes, OnlyLastLives, Fate;
      ghost var ch := x.parent.Chain(x.parentSub);
      ghost var c := BlockPlace(ToSpans(ch), x.ToSpan());
      UnknownDisjoint(x.ToSpan());
      x.parent.LinkedChain(x.parentSub);
      PutIn(x);
      PutSpans(ch, c, x);
    }

    /** No stored block has an id of `x`. */
    ghost predicate Unknown(x: Span)
      reads this`blocks, blocks`known
    {
      forall id :: x.Contains(id) ==> id !in blocks.known
    }

    lemma UnknownDisjoint(x: Span)
      requires blocks.Valid() && Unknown(x) && x.len > 0
      ensures forall o :: o in blocks.stored ==> Disjoint(x.id, x.len, o.id, o.len)
    {
      forall o | o in blocks.stored ensures Disjoint(x.id, x.len, o.id, o.len) {
        assert o.len > 0;
        if !Disjoint(x.id, x.len, o.id, o.len) {
          var id := if o.id.clock <= x.id.clock then x.id else o.id;
          assert x.Contains(id) && o.Has(id);
        }
      }
    }

    /** Records the range of a block that has no branch to go to. */
    method IntegrateGc(id: ID, len: nat, offset: nat)
      requires blocks.Valid()
      modifies this`deleteSet, this`insertSet, blocks`clients
      ensures blocks.Valid()
      ensures var gc := GcRange(id, len, offset);
        && deleteSet == old(deleteSet) + IdsOf(gc) && insertSet == old(insertSet) + IdsOf(gc)
        && blocks.clients == Appended(old(blocks.clients), id.client, GcCell(gc.id, gc.len))
    {
      hide BlockStore.Valid, IdsOf;
      var gc := GcRange(id, len, offset);
      deleteSet, insertSet := deleteSet + IdsOf(gc), insertSet + IdsOf(gc);
      blocks.PushGc(gc.id, gc.len);
    }

    lemma FellInto(x: Item, offset: nat)
      requires var gc := GcRange(x.id, x.len, offset);
        x.id.client in blocks.clients && GcCell(gc.id, gc.len) in blocks.clients[x.id.client]
      ensures Fell(x, offset)
    {
    }

    /** Integrates a block that has its branch and its key. */
    method EnterIn(x: Item, ghost b: Branch, ghost key: Option<string>)
      requires Holds(b) && b.Counted(kind) && b.item != x && x !in b.items && x !in blocks.stored
      requires x.parent == b && x.parentSub == key && x.Seated(b.Chain(key)) && Unknown(x.ToSpan())
      requires x.HasLength() && !x.deleted && x.countable == x.content.IsCountable()
      modifies this`deleteSet, this`insertSet, blocks, x`left, x`right, x`deleted
      modifies b.items`left, b.items`right, b.items`deleted
      modifies b`start, b`entries, b`chains, b`items, b`blockLen, b`contentLen
      ensures Holds(b) && b.Counted(kind) && b.items == old(b.items) + {x}
      ensures blocks.stored == old(blocks.stored) + {x} && blocks.known == old(blocks.known) + x.Ids()
      ensures Placed(x, b, key) && Supersedes(x, old(b.items)) && Records(x, old(b.Chain(key)))
      ensures ToSpans(b.Chain(key)) == BlockIntegrate(old(ToSpans(b.Chain(key))), x.ToSpan())
    {
      hide Item.Ids, BlockStore.Exact, BlockPlace, Put, Branch.Valid, Branch.Totals, BlockStore.Valid, ToSpans, IdsOf;
      hide BlockIntegrate, Unknown, Item.Seated, Item.HasLength, Holds, Fate, EndsWith, TopOf, Records, Supersedes;
      IntegrateEntry(x);
    }

    /** Integrates a block whose neighbours have been looked up. */
    method Enter(x: Item, offset: nat, ghost b: Branch, ghost key: Option<string>) returns (done: bool)
      requires Holds(b) && b.Counted(kind) && b.item != x && x !in b.items && x !in blocks.stored
      requires Found(x.left, x.right, x.ToSpan(), b.Chain(key)) && Unknown(x.ToSpan())
      requires x.parent != null ==> x.parent == b && x.parentSub == key
      requires x.HasLength() && !x.deleted && x.countable == x.content.IsCountable()
      modifies this`deleteSet, this`insertSet, blocks, x`left, x`right, x`deleted, x`parentSub
      modifies b.items`left, b.items`right, b.items`deleted
      modifies b`start, b`entries, b`chains, b`items, b`blockLen, b`contentLen
      ensures Holds(b) && b.Counted(kind) && done == (x.parent != null)
      ensures b.items == old(b.items) + (if done then {x} else {})
      ensures blocks.stored == old(blocks.stored) + (if done then {x} else {})
      ensures blocks.known == old(blocks.known) + (if done then x.Ids() else iset{})
      ensures !done ==> b.chains == old(b.chains)
      ensures !done ==> Fell(x, offset)
      ensures done ==> Placed(x, b, key)
      ensures done ==> Supersedes(x, old(b.items)) && Records(x, old(b.Chain(key)))
      ensures !done ==> RecordsRange(x, offset)
      ensures ToSpans(b.Chain(key)) ==
        if done then BlockIntegrate(old(ToSpans(b.Chain(key))), x.ToSpan()) else old(ToSpans(b.Chain(key)))
    {
      hide GcRange, Item.Ids, BlockStore.Exact, Fell, Appended, Fate, EndsWith, TopOf, OnlyLastLives;
      hide BlockPlace, Put, Branch.Sound, Branch.Valid, Branch.Totals, BlockStore.Valid, ToSpans, BlockIntegrate;
      hide Found, Unknown, Seats, OnlyIn;
      hide BlockStore.Keeps, IdsOf, Linked, Item.HasLength, NeedsDeletion;
      SeatsFound(x.left, x.right, x.ToSpan(), b, key);
      b.LinkedChain(key);
      x.parentSub := KeyOf(x.left, x.right, x.parentSub);
      if x.parent == null {
        IntegrateGc(x.id, x.len, offset);
        FellInto(x, offset);
        return false;
      }
      EnterIn(x, b, key);
      done := true;
    }

    /** If the new block is not the last of its chain, then that is as it was. */
    twostate predicate KeepsTop(x: Item, b: Branch, key: Option<string>)
      reads b`chains, b.Chain(key)`deleted, b.Chain(key)`id, b.Chain(key)`len, b.Chain(key)`content
    {
      !EndsWith(b.Chain(key), x) ==> TopOf(b.Chain(key)) == old(TopOf(b.Chain(key)))
    }

    /** A new block is in its place in the chain. */
    twostate predicate Placed(x: Item, b: Branch, key: Option<string>)
      requires x.parent != null
      reads x`parent, x`parentSub, x`deleted, x`content, x`id, x`len, x`origin, x`rightOrigin
      reads b`chains, b.Chain(key)`deleted, b.Chain(key)`id, b.Chain(key)`len, b.Chain(key)`content
      reads b`item, (if b.item == null then {} else {b.item})`deleted
    {
      && x.parentSub == key
      && b.Chain(key) == Put(old(b.Chain(key)), BlockPlace(old(ToSpans(b.Chain(key))), x.ToSpan()), x)
      && Fate(x, b, key) && KeepsTop(x, b, key)
      && (key.Some? && old(OnlyLastLives(b.Chain(key))) ==> OnlyLastLives(b.Chain(key)))
    }

    /** Integrates a block whose neighbours have been looked up: nothing else is changed by that. */
    method EnterShown(x: Item, offset: nat, ghost b: Branch, ghost key: Option<string>) returns (done: bool)
      requires Holds(b) && b.Counted(kind) && b.item != x && x !in b.items && x !in blocks.stored
      requires Found(x.left, x.right, x.ToSpan(), b.Chain(key)) && Unknown(x.ToSpan())
      requires x.parent != null ==> x.parent == b && x.parentSub == key
      requires x.HasLength() && !x.deleted && x.countable == x.content.IsCountable()
      modifies this`deleteSet, this`insertSet, blocks, x`left, x`right, x`deleted, x`parentSub
      modifies b.items`left, b.items`right, b.items`deleted
      modifies b`start, b`entries, b`chains, b`items, b`blockLen, b`contentLen
      ensures Holds(b) && b.Counted(kind) && done == (x.parent != null)
      ensures if done then Entered(x, b, key) else Fell(x, offset)
      ensures OnlyAdds(x, b)
      ensures done ==> Supersedes(x, old(b.items)) && Records(x, old(b.Chain(key)))
      ensures done ==> forall o :: o in old(b.Chain(key)) ==> o in b.Chain(key)
      ensures !done ==> RecordsRange(x, offset)
      ensures ToSpans(b.Chain(key)) ==
        if done then BlockIntegrate(old(ToSpans(b.Chain(key))), x.ToSpan()) else old(ToSpans(b.Chain(key)))
    {
      hide BlockStore.Exact, Branch.Counted, Records, RecordsRange;
      hide Branch.Valid, Branch.Totals, Branch.Sound, BlockStore.Valid, BlockStore.Keeps, ToSpans, BlockIntegrate;
      hide BlockPlace, Found, Unknown, OnlyIn, Item.Ids, Item.ToSpan, Item.HasLength, Fate, KeepsTop, OnlyLastLives;
      hide Looks, Look, Flat, Put, Inserted, LiveOnes;
      ghost var ch := b.Chain(key);
      ghost var ls, c := Looks(ch), BlockPlace(ToSpans(ch), x.ToSpan());
      HasLengths(b, key);
      done := Enter(x, offset, b, key);
      if done {
        PutHas(ch, c, x);
        if key.None? { PutShows(ch, c, x, ls); }
      }
    }

    /** The same; and of a key only one entry lives. */
    method EnterLives(x: Item, offset: nat, ghost b: Branch, ghost key: Option<string>) returns (done: bool)
      requires Holds(b) && b.Counted(kind) && b.item != x && x !in b.items && x !in blocks.stored
      requires Found(x.left, x.right, x.ToSpan(), b.Chain(key)) && Unknown(x.ToSpan())
      requires x.parent != null ==> x.parent == b && x.parentSub == key
      requires x.HasLength() && !x.deleted && x.countable == x.content.IsCountable()
      modifies this`deleteSet, this`insertSet, blocks, x`left, x`right, x`deleted, x`parentSub
      modifies b.items`left, b.items`right, b.items`deleted
      modifies b`start, b`entries, b`chains, b`items, b`blockLen, b`contentLen
      ensures Holds(b) && b.Counted(kind) && done == (x.parent != null)
      ensures if done then Entered(x, b, key) else Fell(x, offset)
      ensures OnlyAdds(x, b)
      ensures ToSpans(b.Chain(key)) ==
        if done then BlockIntegrate(old(ToSpans(b.Chain(key))), x.ToSpan()) else old(ToSpans(b.Chain(key)))
      ensures if done then Noted(x, b, key) else RecordsRange(x, offset)
      ensures done && key.Some? && (x.deleted || x.len == 1) && old(OneLives(b.Chain(key))) ==> OneLives(b.Chain(key))
    {
      hide BlockStore.Exact, Branch.Counted, Holds, ToSpans, BlockIntegrate, Found, Unknown, Item.Ids, Item.ToSpan;
      hide Item.HasLength, Fate, KeepsTop, OnlyLastLives, ShownAll, Inserted, Look, GcRange, OnlyAdds;
      hide DeadIds, IdsIn, IdsOf, Joins;
      ghost var ch := b.Chain(key);
      ghost var before, noted, was := DeadIds(ch), deleteSet, set o | o in ch && o.deleted;
      SeenBefore(x, b, key);
      HasLengths(b, key);
      DeadAre(ch, was);
      done := EnterShown(x, offset, b, key);
      if done {
        Separate(b, key);
        NewlyNoted(ch, b.Chain(key), x, x.left, x.right == null && x.parentSub.Some?, was, before, noted, deleteSet);
      }
    }

    /** No id is in two blocks of a chain. */
    lemma Separate(b: Branch, key: Option<string>)
      requires Holds(b)
      ensures forall o, p, id :: o in b.Chain(key) && p in b.Chain(key) && o != p && o.Has(id) ==> !p.Has(id)
    {
      hide BlockStore.Valid, Branch.Valid;
      b.LinkedChain(key);
      forall o, p, id | o in b.Chain(key) && p in b.Chain(key) && o != p && o.Has(id) ensures !p.Has(id) {
        NotInBoth(blocks, o, p, id);
      }
    }

    lemma SeenBefore(x: Item, b: Branch, key: Option<string>)
      requires Holds(b) && x !in b.items
      ensures x !in b.Chain(key)
    {
      hide BlockStore.Valid, Branch.Valid;
      b.LinkedChain(key);
    }

    /** A cut before what is not known falls on nothing. */
    lemma UnknownClean(b: Branch, key: Option<string>, x: Span)
      requires Holds(b) && Unknown(x) && x.len > 0
      ensures CleanAt(ShownAll(b.Chain(key)), x.id)
    {
      hide Branch.Valid, Linked, CleanAt, ShownAll, Disjoint;
      b.LinkedChain(key);
      assert x.Contains(x.id);
      forall j | 0 <= j < |b.Chain(key)| ensures b.Chain(key)[j].HasLength() && !b.Chain(key)[j].Has(x.id) {
        assert b.Chain(key)[j] in blocks.stored;
      }
      NotShown(b.Chain(key), x.id);
    }

    lemma HasLengths(b: Branch, key: Option<string>)
      requires Holds(b)
      ensures forall o :: o in b.Chain(key) ==> o in b.items
    {
      hide Branch.Valid, BlockStore.Valid;
      b.LinkedChain(key);
    }

    /** A new block was put into the chain: what it shows is inserted, and for a key only the last entry lives. */
    twostate predicate Entered(x: Item, b: Branch, key: Option<string>)
      requires x.parent != null
      reads x, b`chains, b.Chain(key)
      reads b`item, (if b.item == null then {} else {b.item})`deleted
    {
      && x.parentSub == key && x in b.Chain(key)
      && Fate(x, b, key) && KeepsTop(x, b, key)
      && (key.None? ==> Inserted(old(ShownAll(b.Chain(key))), Look(x), ShownAll(b.Chain(key))))
      && (key.Some? && old(OnlyLastLives(b.Chain(key))) ==> OnlyLastLives(b.Chain(key)))
      && forall o :: o in b.Chain(key) && o != x ==> o in old(b.Chain(key)) && (old(o.deleted) ==> o.deleted)
    }

    /** No id becomes known but those of `x`, and no block is lost. */
    twostate predicate OnlyAdds(x: Item, b: Branch)
      reads this`blocks, blocks`stored, blocks`known, b`items, x`id, x`len
    {
      && fresh(b.items - old(b.items) - {x}) && fresh(blocks.stored - old(blocks.stored) - {x})
      && old(b.items) <= b.items && old(blocks.stored) <= blocks.stored
      && old(blocks.known) <= blocks.known <= old(blocks.known) + x.Ids()
    }

    /** The block is recorded as a range of clocks whose content is gone. */
    ghost predicate Fell(x: Item, offset: nat)
      reads this`blocks, blocks`clients, x`id, x`len
    {
      var gc := GcRange(x.id, x.len, offset);
      x.id.client in blocks.clients && GcCell(gc.id, gc.len) in blocks.clients[x.id.client]
    }

    /** Integrates a block whose neighbours have been looked up, but for its first `offset` units. */
    method IntegrateItem(x: Item, offset: nat, ghost b: Branch, ghost key: Option<string>) returns (done: bool)
      requires Holds(b) && b.Counted(kind) && b.item != x && x !in b.items && x !in blocks.stored
      requires Found(x.left, x.right, x.ToSpan(), b.Chain(key))
      requires x.parent != null ==> x.parent == b && x.parentSub == key
      requires offset < x.len && x.HasLength() && !x.deleted && x.countable == x.content.IsCountable()
      requires offset > 0 ==> OnlyIn(x.ToSpan().IdAt(offset - 1), b.Chain(key))
      requires Unknown(Tail(x.ToSpan(), offset))
      modifies this`deleteSet, this`insertSet, blocks, x`left, x`right, x`deleted, x`parentSub
      modifies x`id, x`origin, x`content, x`len, b.items`len, b.items`content
      modifies b.items`left, b.items`right, b.items`deleted
      modifies b`start, b`entries, b`chains, b`items, b`lost, b`blockLen, b`contentLen
      ensures Holds(b) && b.Counted(kind) && done == (x.parent != null)
      ensures x.ToSpan() == Tail(old(x.ToSpan()), offset).(origin := x.origin)
      ensures offset == 0 ==> x.origin == old(x.origin)
      ensures offset > 0 ==>
        var prev := old(x.ToSpan()).IdAt(offset - 1);
        x.origin == if prev in old(blocks.known) then Some(prev) else None
      ensures !done ==> Fell(x, offset) && RecordsRange(x, offset)
      ensures done ==> Noted(x, b, key)
      ensures OnlyAdds(x, b)
      ensures done ==> x.parentSub == key && Fate(x, b, key)
      ensures done && old(OneLives(b.Chain(key))) ==> KeepsTop(x, b, key)
      ensures x.content == if offset > 0 then old(x.content).Cut(offset).1 else old(x.content)
      ensures done && offset == 0 ==> Entered(x, b, key)
      ensures done && key.Some? && (x.deleted || x.len == 1) && old(OneLives(b.Chain(key))) ==> OneLives(b.Chain(key))
      ensures done && key.None? ==> Inserted(old(ShownAll(b.Chain(key))), Look(x), ShownAll(b.Chain(key)))
      ensures b.lost == old(b.lost)
      ensures var was := old(ToSpans(b.Chain(key)));
        var bs := if offset > 0 then CleanEnd(was, old(x.ToSpan()).IdAt(offset - 1)) else was;
        ToSpans(b.Chain(key)) == if done then BlockIntegrate(bs, x.ToSpan()) else bs
    {
      hide Branch.Counted, BlockStore.Valid, ToSpans, BlockIntegrate, CleanEnd, OnlyIn, Holds, Unknown, OneLives;
      hide Found, Content.Length16, Content.Cut, ShownAll, Look, Inserted, Fate, OnlyLastLives, LiveOnes, Fell;
      hide CleanAt, GcRange, Item.Ids, Item.HasLength, DeadIds, IdsOf, TopOf, EndsWith, Joins;
      if offset > 0 { TrimKnown(x, offset, b, key); }
      done := EnterLives(x, offset, b, key);
    }

    /** Leaves out what is known of `x`: nothing that is known changes by that. */
    method TrimKnown(x: Item, offset: nat, ghost b: Branch, ghost key: Option<string>)
      requires Holds(b) && b.Counted(kind) && x !in b.items && x !in blocks.stored
      requires Found(x.left, x.right, x.ToSpan(), b.Chain(key))
      requires 0 < offset < x.len && x.HasLength() && x.countable == x.content.IsCountable()
      requires OnlyIn(x.ToSpan().IdAt(offset - 1), b.Chain(key))
      requires Unknown(Tail(x.ToSpan(), offset))
      modifies x`id, x`left, x`origin, x`content, x`len
      modifies blocks, b.items`len, b.items`content, b.items`left, b.items`right
      modifies b`start, b`entries, b`chains, b`items, b`lost
      ensures Holds(b) && b.Counted(kind) && Found(x.left, x.right, x.ToSpan(), b.Chain(key)) && Unknown(x.ToSpan())
      ensures x.HasLength() && x.countable == x.content.IsCountable()
      ensures x.ToSpan() == Tail(old(x.ToSpan()), offset).(origin := x.origin)
      ensures var prev := old(x.ToSpan()).IdAt(offset - 1);
        x.origin == if prev in old(blocks.known) then Some(prev) else None
      ensures x.content == old(x.content).Cut(offset).1
      ensures fresh(b.items - old(b.items)) && fresh(blocks.stored - old(blocks.stored))
      ensures old(b.items) <= b.items && old(blocks.stored) <= blocks.stored
      ensures blocks.known == old(blocks.known) && b.lost == old(b.lost)
      ensures ShownAll(b.Chain(key)) == old(ShownAll(b.Chain(key)))
      ensures old(OneLives(b.Chain(key))) ==>
        OneLives(b.Chain(key)) && TopOf(b.Chain(key)) == old(TopOf(b.Chain(key)))
      ensures DeadIds(b.Chain(key)) == old(DeadIds(b.Chain(key)))
      ensures ToSpans(b.Chain(key)) == CleanEnd(old(ToSpans(b.Chain(key))), old(x.ToSpan()).IdAt(offset - 1))
    {
      hide Branch.Valid, Branch.Totals, BlockStore.Valid, ToSpans, BlockIntegrate, CleanEnd, OnlyIn, OneLives;
      hide BlockStore.Keeps, Branch.Sound, Linked, Found, Content.Length16, Content.Cut, ShownAll, CleanAt;
      hide Branch.Counted, Holds, DeadIds, TopOf;
      CutLengths(x.content, offset);
      UnknownClean(b, key, Tail(x.ToSpan(), offset));
      Trim(x, offset, b, key);
    }
  }

  /** The position in a chain after which a new block goes. */
  ghost function PlaceIn(ch: seq<Item>, x: Span): (c: int)
    reads ch`id, ch`len, ch`origin, ch`rightOrigin
    ensures -1 <= c < |ch|
  {
    BlockPlace(ToSpans(ch), x)
  }

  function Tail(b: Span, k: nat): Span
    requires k < b.len
  {
    if k == 0 then b else CutRight(b, k)
  }

  /** The range that is recorded: `offset` is left out, in 32-bit arithmetic. */
  function GcRange(id: ID, len: nat, offset: nat): Span {
    Span(IdAfter(id, offset), (len - offset) % 0x1_0000_0000, None, None)
  }

  /** Of a block of which `k` units are known, the range is that of the others. */
  lemma GcRangeIs(b: Span, k: nat)
    requires k < b.len < 0x1_0000_0000
    ensures IdsOf(GcRange(b.id, b.len, k)) == IdsOf(Tail(b, k))
  {
    assert forall i :: GcRange(b.id, b.len, k).IdAt(i) == Tail(b, k).IdAt(i);
  }

  /** A block that was trimmed is trimmed again here: the range is the right one only without an offset. */
  lemma GcFallback(b: Span, k: nat)
    requires k < b.len < 0x1_0000_0000
    ensures IdsOf(GcRange(Tail(b, k).id, Tail(b, k).len, k)) == IdsOf(Tail(b, k)) <==> k == 0
  {
    var rest := Tail(b, k);
    assert rest.IdAt(0) in IdsOf(rest);
    if k > 0 {
      assert rest.IdAt(0) !in IdsOf(GcRange(rest.id, rest.len, k));
    } else {
      assert forall i :: GcRange(rest.id, rest.len, k).IdAt(i) == rest.IdAt(i);
    }
  }

  /** Where one value lives at most, only what is deleted can be cut. */
  lemma DeadIfLong(ch: seq<Item>, it: Item)
    requires OneLives(ch) && it in ch && it.len > 1
    ensures it.deleted
  {
  }

  lemma CutOneLives(ch: seq<Item>, i: nat, rest: Item)
    requires i < |ch| && OnlyLastLives(ch) && ch[i].deleted && rest.deleted
    requires forall it :: it in ch && it != ch[i] ==> it.deleted || it.len == 1
    ensures OneLives(Put(ch, i, rest))
  {
    PutHas(ch, i, rest);
    var t := Put(ch, i, rest);
    forall k | 0 <= k < |t| - 1 ensures t[k].deleted { PutGet(ch, i, rest, k); }
  }

  lemma TopIs(ch: seq<Item>, i: nat)
    requires i < |ch| && ch[i].deleted && ch[i].len > 0
    ensures i + 1 == |ch| ==> TopOf(ch) == Dead(ch[i].ToSpan().LastId())
  {
  }

  /** A deleted block was cut: the last id is still that of the last block. */
  lemma CutTop(ch: seq<Item>, i: nat, rest: Item, was: Span, k: nat, top: Top)
    requires i < |ch| && rest.deleted && 0 < k < was.len && rest.ToSpan() == CutRight(was, k)
    requires if i + 1 == |ch| then top == Dead(was.LastId()) else TopOf(ch) == top
    ensures TopOf(Put(ch, i, rest)) == top
  {
    PutGet(ch, i, rest, |ch|);
  }

  /** A new block that is not the last one leaves the last one where it is. */
  lemma PutTop(ch: seq<Item>, c: int, x: Item)
    requires -1 <= c < |ch| && x !in ch
    ensures |Put(ch, c, x)| == |ch| + 1 && (EndsWith(Put(ch, c, x), x) <==> c + 1 == |ch|)
    ensures c + 1 < |ch| ==> Put(ch, c, x)[|ch|] == ch[|ch| - 1]
  {
    PutGet(ch, c, x, |ch|);
  }

  lemma IdsAre(it: Item, id: ID)
    ensures id in IdsOf(it.ToSpan()) <==> it.Has(id)
  {
    if it.Has(id) { assert id == it.ToSpan().IdAt(id.clock - it.id.clock); }
  }

  lemma DeadParts(ch: seq<Item>, it: Item, others: set<Item>)
    requires it in ch && others == set o | o in ch && o != it && o.deleted
    ensures DeadIds(ch) == IdsIn(others) + if it.deleted then SpanIds(it.ToSpan()) else iset{}
  {
    assert forall id :: it.ToSpan().Contains(id) <==> it.Has(id);
  }

  ghost function SpanIds(b: Span): iset<ID> {
    iset id | b.Contains(id)
  }

  /** A block was cut: the same ids are deleted. */
  lemma CutDead(ch: seq<Item>, i: nat, rest: Item, was: Span, k: nat, others: set<Item>)
    requires i < |ch| && 0 < k < was.len && rest !in ch
    requires forall o :: o in others <==> o in ch && o != ch[i] && o.deleted
    requires ch[i].ToSpan() == CutLeft(was, k) && rest.ToSpan() == CutRight(was, k) && rest.deleted == ch[i].deleted
    ensures DeadIds(Put(ch, i, rest)) == IdsIn(others) + if rest.deleted then SpanIds(was) else iset{}
  {
    PutHas(ch, i, rest);
  }

  lemma DeadAre(ch: seq<Item>, was: set<Item>)
    requires was == set o | o in ch && o.deleted
    ensures DeadIds(ch) == IdsIn(was)
  {
  }

  /** What was deleted when `x` was put into the chain: `x`, and the entry before it. */
  lemma NewlyDead(ch: seq<Item>, t: seq<Item>, x: Item, left: Item?, sup: bool, was: set<Item>, before: iset<ID>)
    requires x !in ch && forall o :: o in t <==> o == x || o in ch
    requires forall o :: o in ch ==> (o.deleted <==> o in was || (o == left && sup))
    requires (forall o :: o in was ==> o in ch) && before == IdsIn(was)
    requires forall o, p, id :: o in t && p in t && o != p && o.Has(id) ==> !p.Has(id)
    ensures forall id :: (id in DeadIds(t) && id !in before) <==>
      (x.deleted && x.Has(id)) || (sup && left in ch && left !in was && left.Has(id))
    ensures !sup ==> Joins(before, x, DeadIds(t))
  {
  }

  /** So these are the ids that were recorded. */
  lemma NewlyNoted(ch: seq<Item>, t: seq<Item>, x: Item, left: Item?, sup: bool, was: set<Item>, before: iset<ID>,
                   noted: set<ID>, notes: set<ID>)
    requires x !in ch && forall o :: o in t <==> o == x || o in ch
    requires forall o :: o in ch ==> (o.deleted <==> o in was || (o == left && sup))
    requires (forall o :: o in was ==> o in ch) && before == IdsIn(was)
    requires forall o, p, id :: o in t && p in t && o != p && o.Has(id) ==> !p.Has(id)
    requires notes == noted + (if x.deleted then IdsOf(x.ToSpan()) else {}) +
                      (if left in ch && sup && left !in was then IdsOf(left.ToSpan()) else {})
    ensures forall id :: id in notes <==> id in noted || (id in DeadIds(t) && id !in before)
    ensures !sup ==> Joins(before, x, DeadIds(t))
  {
    hide IdsOf, DeadIds, IdsIn, Item.Has, Joins;
    NewlyDead(ch, t, x, left, sup, was, before);
    forall id ensures id in IdsOf(x.ToSpan()) <==> x.Has(id) { IdsAre(x, id); }
    if left != null {
      forall id ensures id in IdsOf(left.ToSpan()) <==> left.Has(id) { IdsAre(left, id); }
    }
  }

  /** Exactly the units of `x` joined the deleted ones, if it is deleted. */
  ghost predicate Joins(was: iset<ID>, x: Item, now: iset<ID>)
    reads x`id, x`len, x`deleted
  {
    forall id :: id in now <==> id in was || (x.deleted && x.Has(id))
  }

  /** The cuts that are made for a block: after its left origin, and before its right one. */
  function CutAfter(id: Option<ID>): set<ID> {
    if id.Some? then {IdAfter(id.value, 1)} else {}
  }

  function CutBefore(id: Option<ID>): set<ID> {
    if id.Some? then {id.value} else {}
  }

  function CutsFor(x: Span): set<ID> {
    CutAfter(x.origin) + CutBefore(x.rightOrigin)
  }

  /** None of these cuts falls inside a surrogate pair. */
  ghost predicate AllClean(ch: seq<Item>, cuts: set<ID>)
    reads ch`id, ch`len, ch`origin, ch`rightOrigin, ch`content, ch`deleted, ch`redone, ch`linked, ch`keep
  {
    forall id :: id in cuts ==> CleanAt(ShownAll(ch), id)
  }

  /** A new block was put into a chain in which only the last one was alive. */
  lemma LastLives(ch: seq<Item>, c: int, x: Item)
    requires -1 <= c < |ch| && forall i :: 0 <= i < |ch| - 1 ==> ch[i].deleted
    requires if c + 1 < |ch| then x.deleted else c >= 0 ==> ch[c].deleted
    ensures OnlyLastLives(Put(ch, c, x))
  {
  }

  /** A new block is deleted if its content is gone, its branch was deleted, or it is not the last entry of its key. */
  ghost predicate Fate(x: Item, b: Branch, key: Option<string>)
    reads x`deleted, x`content, b`chains, b`item, (if b.item == null then {} else {b.item})`deleted
  {
    x.deleted <==> x.content.Deleted? || HolderDeleted(b) || (key.Some? && !EndsWith(b.Chain(key), x))
  }

  /** The branch was deleted, or a later entry of the same key is already there. */
  predicate NeedsDeletion(x: Item)
    requires x.parent != null
    reads x`parent, x`parentSub, x`right, x.parent`item
    reads (if x.parent.item == null then {} else {x.parent.item})`deleted
  {
    || (x.parent.item != null && x.parent.item.deleted)
    || (x.parentSub.Some? && x.right != null)
  }

  /** `r` is `bs` with block `j` cut after `k` units. */
  ghost predicate IsCut(bs: seq<Span>, j: nat, k: nat, r: seq<Span>) {
    j < |bs| && 0 < k < bs[j].len && r == Cut(bs, j, k)
  }

  /** A block was cut, and its rest put after it. */
  lemma CutSpans(bs: seq<Span>, ch: seq<Item>, i: nat, rest: Item, k: nat)
    requires i < |ch| == |bs| && 0 < k < bs[i].len
    requires forall j :: 0 <= j < |ch| ==> ch[j].ToSpan() == if j == i then CutLeft(bs[i], k) else bs[j]
    requires rest.ToSpan() == CutRight(bs[i], k)
    ensures IsCut(bs, i, k, ToSpans(Put(ch, i, rest)))
  {
    hide Item.ToSpan;
    PutSpans(ch, i, rest);
    SpansAre(ch, bs[i := CutLeft(bs[i], k)]);
  }

  /** A block between two neighbours goes there: the scan would stop at once. */
  lemma NoConflict(left: Item?, right: Item?, x: Span, ch: seq<Item>)
    requires Linked(ch) && Seats(ch, left, right, x)
    requires if left == null then right != null && right.left == null else left.right == right
    ensures BlockPlace(ToSpans(ch), x) == LeftBlock(ToSpans(ch), x)
  {
    hide ToSpans;
    var lo := LeftBlock(ToSpans(ch), x);
    if left != null {
      assert LinkedAt(ch, lo);
    } else {
      var k :| 0 <= k < |ch| && ch[k] == right;
      assert LinkedAt(ch, k);
    }
  }

  /** The origins of `x` are not in one block once the first of them ends its block. */
  ghost predicate OriginsApart(bs: seq<Span>, x: Span) {
    x.origin.Some? && x.rightOrigin.Some? ==>
      var a := CleanEnd(bs, x.origin.value);
      var j := BlockOf(a, x.origin.value);
      j < 0 || j != BlockOf(a, x.rightOrigin.value)
  }

  /** The key of a new block: that of a neighbour, if it has one. */
  function KeyOf(left: Item?, right: Item?, own: Option<string>): Option<string>
    reads (if left == null then {} else {left})`parentSub, (if right == null then {} else {right})`parentSub
  {
    if left != null && left.parentSub.Some? then left.parentSub
    else if right != null && right.parentSub.Some? then right.parentSub
    else own
  }
}
