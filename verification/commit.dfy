/** The end of a transaction: what it deleted is collected, and the branches that are left stay sound. */
module Commit {
  import opened Ids
  import opened Seqs
  import opened Text
  import opened Block
  import opened Integration
  import opened Gc

  /** A branch that no deleted item holds loses no block, and stays linked as it was. */
  lemma NoneCollected(b: Branch, all: set<Item>, h: map<Branch, nat>, closed: bool, nested: map<Item, set<Item>>,
      first: map<Branch, (Item?, map<string, Item>)>, off: set<Item>, dead: set<Item>)
    requires b.item == null || !b.item.deleted
    requires OnlyNested(nested, all, off, dead, closed) && OnlyDoomedEmptied(all, h, closed, first)
    requires off <= DeadIn(all)
    ensures (forall it :: it in off ==> it.deleted) && (forall m :: m in dead ==> m.parent != b)
    ensures b in h && b in first ==> b.start == first[b].0 && b.entries == first[b].1
  {
  }

  lemma ParentIs(b: Branch)
    requires b.Valid()
    ensures forall it :: it in b.items ==> it.parent == b
  {
    hide Linked, EntriesOk;
  }

  /** The weights are those of a chain whose blocks had this content. */
  ghost predicate WeighAs(ch: seq<Item>, kind: OffsetKind, had: map<Item, (Content, bool)>, ws: seq<nat>)
    reads ch`len, ch`deleted
  {
    |ws| == |ch| && forall j :: 0 <= j < |ch| ==>
      && ch[j] in had
      && ws[j] == if ch[j].deleted || !had[ch[j]].1 then 0
                  else if kind.Utf16? then ch[j].len else had[ch[j]].0.Length8()
  }

  lemma WeightsBefore(ch: seq<Item>, kind: OffsetKind, items: set<Item>)
    requires forall it :: it in ch ==> it in items
    ensures WeighAs(ch, kind, ContentsOf(items), Weights(ch, kind))
  {
  }

  /** What is deleted weighs nothing, with its content or without. */
  lemma WeightsAfter(ch: seq<Item>, kind: OffsetKind, items: set<Item>, off: set<Item>,
      had: map<Item, (Content, bool)>, ws: seq<nat>)
    requires WeighAs(ch, kind, had, ws) && OnlyLost(items, off, had)
    requires (forall it :: it in off ==> it.deleted) && forall it :: it in ch ==> it in items
    ensures Weights(ch, kind) == ws
  {
    WeightsAre(ch, kind, ws);
  }

  lemma DeadInScope(blocks: BlockStore, deleted: map<nat, seq<Range>>)
    requires blocks.Valid()
    ensures DeadIn(ScopeOf(blocks.clients, deleted)) <= DeadIn(blocks.stored)
  {
    hide InScope;
  }

  /** What the blocks of a branch are after a collection. */
  lemma StillHolds(t: Transaction, b: Branch, all: set<Item>, off: set<Item>, had: map<Item, (Content, bool)>)
    requires b.Valid() && b.items <= t.blocks.stored && t.AllOf(b) && t.blocks.Valid() && t.blocks.Exact()
    requires HadLengths(b.items, had) && OnlyLost(all, off, had) && b.items <= all
    ensures t.Holds(b) && OnlyLost(b.items, off, had)
  {
    hide Branch.Valid, BlockStore.Valid, BlockStore.Exact;
  }

  ghost predicate HadLengths(items: set<Item>, had: map<Item, (Content, bool)>)
    reads items`len
  {
    forall it :: it in items ==>
      it in had && 0 < it.len == had[it].0.Length16() && (it.len == 1 || had[it].0.CanBeCut())
  }

  lemma HadThem(t: Transaction, b: Branch)
    requires t.Holds(b)
    ensures b.items <= t.blocks.stored && HadLengths(b.items, ContentsOf(t.blocks.stored))
  {
    hide Branch.Valid, BlockStore.Valid, BlockStore.Exact;
  }

  /** A collection keeps a branch that no deleted item holds sound. */
  method CollectSound(t: Transaction, deleted: map<nat, seq<Range>>, ghost h: map<Branch, nat>, ghost closed: bool,
      ghost b: Branch) returns (ghost off: set<Item>)
    requires t.Holds(b) && (b.item == null || !b.item.deleted)
    requires Tree(t.blocks.stored, h) && Covered(t.blocks.clients)
    requires closed ==> KeepClosed(t.blocks.stored, h.Keys)
    modifies t.blocks, t.blocks.stored`content, t.blocks.stored`countable, h.Keys`start, h.Keys`entries
    ensures t.Holds(b) && OnlyLost(b.items, off, old(ContentsOf(t.blocks.stored)))
    ensures off == old(DeadIn(ScopeOf(t.blocks.clients, deleted))) && forall it :: it in off ==> it.deleted
  {
    hide Tree, KeepClosed, Covered, DeadIn, ScopeOf, OnlyNested, OnlyDoomedEmptied, Nested, Item.HasLength;
    hide BlockStore.Valid, BlockStore.Exact, Branch.ChainOk, EntriesOk, HadLengths, OnlyLost, ContentsOf;
    ghost var all, known := t.blocks.stored, DeadIn(t.blocks.stored);
    ghost var nested, first, had := Nested(all, h.Keys), LinksOf(h), ContentsOf(all);
    DeadInScope(t.blocks, deleted);
    ParentIs(b);
    HadThem(t, b);
    ghost var dead;
    off, dead := CollectStore(t.blocks, deleted, h, closed);
    assert known == DeadIn(all);
    NoneCollected(b, all, h, closed, nested, first, off, dead);
    assert b.Valid() && t.AllOf(b);
    StillHolds(t, b, all, off, had);
  }

  /** And its lengths stay right. */
  method CollectBranch(t: Transaction, deleted: map<nat, seq<Range>>, ghost h: map<Branch, nat>, ghost closed: bool,
      ghost b: Branch) returns (ghost off: set<Item>)
    requires t.Holds(b) && b.Counted(t.kind) && (b.item == null || !b.item.deleted)
    requires Tree(t.blocks.stored, h) && Covered(t.blocks.clients)
    requires closed ==> KeepClosed(t.blocks.stored, h.Keys)
    modifies t.blocks, t.blocks.stored`content, t.blocks.stored`countable, h.Keys`start, h.Keys`entries
    ensures t.Holds(b) && b.Counted(t.kind) && OnlyLost(b.items, off, old(ContentsOf(t.blocks.stored)))
    ensures off == old(DeadIn(ScopeOf(t.blocks.clients, deleted))) && forall it :: it in off ==> it.deleted
  {
    hide Tree, KeepClosed, Covered, DeadIn, ScopeOf, OnlyLost, ContentsOf, WeighAs, Transaction.Holds, Weights, Sum;
    ghost var ch, all, had := b.Chain(None), t.blocks.stored, ContentsOf(t.blocks.stored);
    ghost var w, u := Weights(ch, Utf16), Weights(ch, t.kind);
    HadThem(t, b);
    t.HasLengths(b, None);
    WeightsBefore(ch, Utf16, all);
    WeightsBefore(ch, t.kind, all);
    off := CollectSound(t, deleted, h, closed, b);
    WeightsAfter(ch, Utf16, b.items, off, had, w);
    WeightsAfter(ch, t.kind, b.items, off, had, u);
  }
}
