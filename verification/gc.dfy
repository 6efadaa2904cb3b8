/** Garbage collection: what was deleted gives up its content, or all but its range of clocks. */
module Gc {
  import opened Ids
  import opened Block

  // ----- keeping

  /** The item that holds the collection that `it` is in. */
  function ParentItem(it: Item): Item?
    reads it`parent, (if it.parent == null then {} else {it.parent})`item
  {
    if it.parent == null then null else it.parent.item
  }

  ghost predicate KeptWell(items: set<Item>, branches: set<Branch>, it: Item)
    reads items`keep, it`parent, it`keep, branches`item
  {
    it.parent != null ==>
      && it.parent in branches
      && (it.keep && it.parent.item != null ==> it.parent.item in items && it.parent.item.keep)
  }

  /** What holds a kept item is kept too. */
  ghost predicate KeepClosed(items: set<Item>, branches: set<Branch>)
    reads items`parent, items`keep, branches`item
  {
    forall it :: it in items ==> KeptWell(items, branches, it)
  }

  /** An item, what holds it, what holds that, and so on. */
  ghost function Holders(it: Item, items: set<Item>, branches: set<Branch>): set<Item>
    reads items`parent, branches`item
    decreases items
  {
    if it !in items then {}
    else if it.parent == null || it.parent !in branches || it.parent.item == null then {it}
    else {it} + Holders(it.parent.item, items - {it}, branches)
  }

  /** No kept item beside those that hold `it` is held by one of them. */
  ghost predicate KeptAlone(it: Item, items: set<Item>, branches: set<Branch>)
    reads items`parent, items`keep, branches`item
  {
    NoneBeside(items, branches, Holders(it, items, branches), KeptOf(items))
  }

  ghost function KeptOf(items: set<Item>): set<Item>
    reads items`keep
  {
    set o | o in items && o.keep
  }

  ghost predicate NoneBeside(items: set<Item>, branches: set<Branch>, path: set<Item>, kept: set<Item>)
    reads items`parent, branches`item
  {
    forall o :: o in kept && o in items && o !in path && o.parent != null && o.parent in branches ==>
      o.parent.item == null || o.parent.item !in path
  }

  /** What holds an item of `kept` is in `kept`. */
  ghost predicate ClosedSet(items: set<Item>, branches: set<Branch>, kept: set<Item>)
    reads items`parent, branches`item
  {
    forall o :: o in items && o.parent != null ==>
      o.parent in branches && (o in kept && o.parent.item != null ==> o.parent.item in items && o.parent.item in kept)
  }

  lemma ClosedIs(items: set<Item>, branches: set<Branch>)
    ensures KeepClosed(items, branches) <==> ClosedSet(items, branches, KeptOf(items))
  {
    if ClosedSet(items, branches, KeptOf(items)) {
      forall o | o in items ensures KeptWell(items, branches, o) { }
    }
    if KeepClosed(items, branches) {
      forall o | o in items && o.parent != null ensures o.parent in branches { assert KeptWell(items, branches, o); }
      forall o | o in items && o.parent != null && o in KeptOf(items) && o.parent.item != null
        ensures o.parent.item in items && o.parent.item in KeptOf(items)
      {
        assert KeptWell(items, branches, o);
      }
    }
  }

  /** The marks of `path` were taken away. */
  lemma TakenAway(items: set<Item>, branches: set<Branch>, path: set<Item>, kept: set<Item>)
    requires ClosedSet(items, branches, kept) && KeptOf(items) == kept - path
    ensures KeepClosed(items, branches) <==> NoneBeside(items, branches, path, kept)
  {
    ClosedIs(items, branches);
  }

  /**
    Marks an item and what holds it as kept or as not kept; stops at the first one that is so already.
    When marks are taken away, another kept item may lose what holds it.
   */
  method Keep(it: Item, keep: bool, ghost items: set<Item>, ghost branches: set<Branch>)
    requires it in items && forall o :: o in items && ParentItem(o) != null ==> ParentItem(o) in items
    requires keep ==> KeepClosed(items, branches)
    modifies items`keep
    ensures it.keep == keep
    ensures keep ==> KeepClosed(items, branches)
    ensures forall o :: o in items ==> o.keep == old(o.keep) || o.keep == keep
    ensures old(it.keep) == keep ==> forall o :: o in items ==> o.keep == old(o.keep)
    ensures !keep && old(it.keep && KeepClosed(items, branches)) ==>
      forall o :: o in items ==> o.keep == (old(o.keep) && o !in Holders(it, items, branches))
    ensures !keep && old(KeepClosed(items, branches)) ==>
      (KeepClosed(items, branches) <==> old(!it.keep || KeptAlone(it, items, branches)))
  {
    hide NoneBeside;
    ghost var kept, path := KeptOf(items), Holders(it, items, branches);
    ghost var closed := ClosedSet(items, branches, kept);
    ClosedIs(items, branches);
    var curr: Item? := it;
    ghost var rest := items;
    while curr != null && curr.keep != keep
      invariant curr != null ==> curr in items
      invariant rest <= items && forall o :: o in items ==> o.keep == if o in rest then o in kept else keep
      invariant forall o :: o in items && ParentItem(o) != null ==> ParentItem(o) in items
      invariant (it.keep == keep || curr == it) && (rest == items ==> curr == it)
      invariant (it in kept) == keep ==> rest == items
      invariant keep ==> forall o :: o in items ==> KeptWell(items, branches, o) || ParentItem(o) == curr
      invariant !keep && closed && it in kept ==>
        && path == (items - rest) + (if curr == null then {} else Holders(curr, rest, branches))
        && (curr != null ==> curr in kept)
      decreases rest
    {
      curr.keep := keep;
      rest := rest - {curr};
      curr := ParentItem(curr);
    }
    if !keep && closed && it in kept { TakenAway(items, branches, path, kept); }
  }

  // ----- nested collections

  /** The links of a collection, which may have been emptied, lead through its blocks. */
  ghost predicate Walkable(b: Branch)
    reads b`start, b`entries, b`chains, b`items
    reads b.items`parent, b.items`parentSub, b.items`left, b.items`right
  {
    && None in b.chains && (forall key :: key in b.chains ==> b.ChainOk(key, b.chains[key]))
    && (b.start != null ==> b.start == At(b.chains[None], 0))
    && (forall key :: key in b.entries ==>
          Some(key) in b.chains && EndsWith(b.chains[Some(key)], b.entries[key]))
  }

  /** A collection that is held by an item is lower than the one the item is in. */
  ghost predicate Nests(it: Item, h: map<Branch, nat>)
    reads it`content, it`parent, h.Keys`item
  {
    it.content.Type? ==>
      && it.content.branch in h && it.content.branch.item == it
      && (it.parent != null && it.parent in h ==> h[it.content.branch] < h[it.parent])
  }

  ghost predicate Tree(items: set<Item>, h: map<Branch, nat>)
    reads items`content, items`parent, items`parentSub, items`left, items`right
    reads h.Keys`start, h.Keys`entries, h.Keys`chains, h.Keys`items, h.Keys`item
  {
    && (forall b :: b in h ==> b.items <= items && Walkable(b))
    && (forall it :: it in items ==> Nests(it, h))
  }

  ghost function Height(it: Item, h: map<Branch, nat>): nat
    reads it`content
  {
    if it.content.Type? && it.content.branch in h then h[it.content.branch] + 1 else 0
  }

  /** What collection may touch: deleted items, and if what is held by kept items is kept, no kept ones. */
  ghost predicate Doomed(it: Item, closed: bool)
    reads it`deleted, it`keep
  {
    it.deleted && (closed ==> !it.keep)
  }

  /** What a collection leads to: the blocks of its sequence, and those of its keys. */
  ghost predicate Walks(b: Branch, m: Item)
    reads b`start, b`entries, b`chains
  {
    || (b.start != null && m in b.Chain(None))
    || exists key :: key in b.entries && m in b.Chain(Some(key))
  }

  ghost function Walked(b: Branch): set<Item>
    reads b`start, b`entries, b`chains, b`items
  {
    set m | m in b.items && Walks(b, m)
  }

  /** What is nested in each item that holds a collection. */
  ghost function Nested(items: set<Item>, branches: set<Branch>): map<Item, set<Item>>
    reads items`content, branches`start, branches`entries, branches`chains, branches`items
  {
    map it | it in items && it.content.Type? && it.content.branch in branches :: Walked(it.content.branch)
  }

  ghost function LinksOf(h: map<Branch, nat>): map<Branch, (Item?, map<string, Item>)>
    reads h.Keys`start, h.Keys`entries
  {
    map b | b in h :: (b.start, b.entries)
  }

  ghost function ContentsOf(items: set<Item>): map<Item, (Content, bool)>
    reads items`content, items`countable
  {
    map it | it in items :: (it.content, it.countable)
  }

  /** Only collections that doomed items hold were emptied: all others have the links that they had at first. */
  ghost predicate OnlyDoomedEmptied(items: set<Item>, h: map<Branch, nat>, closed: bool,
      first: map<Branch, (Item?, map<string, Item>)>)
    reads h.Keys`start, h.Keys`entries, h.Keys`item, items`deleted, items`keep
  {
    forall b :: b in h && b in first && !(b.item in items && Doomed(b.item, closed)) ==>
      b.start == first[b].0 && b.entries == first[b].1
  }

  /** Exactly these items have lost their content: all others have what they had at first. */
  ghost predicate OnlyLost(items: set<Item>, lost: set<Item>, had: map<Item, (Content, bool)>)
    reads items`content, items`countable, items`len
  {
    forall it :: it in items && it in had ==>
      if it in lost then it.content == Deleted(it.len) && !it.countable
      else it.content == had[it].0 && it.countable == had[it].1
  }

  /** The items that were deleted and are not kept. */
  ghost function DeadIn(items: set<Item>): set<Item>
    reads items`deleted, items`keep
  {
    set it | it in items && it.deleted && !it.keep
  }

  class GCCollector {
    var marked: map<nat, seq<nat>>
    ghost var dead: set<Item>
    ghost var lost: set<Item>

    /** All items and collections, and whether what holds a kept item is kept. */
    ghost const items: set<Item>
    ghost const h: map<Branch, nat>
    ghost const closed: bool

    /** The items that may lose their content; all others can only be marked. */
    ghost const scope: set<Item>

    /** What was nested, linked and held at first. */
    ghost const nested: map<Item, set<Item>>
    ghost const first: map<Branch, (Item?, map<string, Item>)>
    ghost const had: map<Item, (Content, bool)>

    constructor (ghost items: set<Item>, ghost h: map<Branch, nat>, ghost closed: bool, ghost scope: set<Item>)
      requires Tree(items, h) && (closed ==> KeepClosed(items, h.Keys))
      ensures this.items == items && this.h == h && this.closed == closed && this.scope == scope
      ensures nested == Nested(items, h.Keys)
      ensures first == LinksOf(h)
      ensures had == ContentsOf(items)
      ensures Ready({}) && lost == {}
    {
      hide Ready, Tree, KeepClosed, Walked;
      marked, dead, lost := map[], {}, {};
      this.items, this.h, this.closed, this.scope := items, h, closed, scope;
      nested := Nested(items, h.Keys);
      first := LinksOf(h);
      had := ContentsOf(items);
      new;
      Begins();
    }

    lemma Begins()
      requires Tree(items, h) && (closed ==> KeepClosed(items, h.Keys))
      requires marked == map[] && dead == {} && lost == {} && nested == Nested(items, h.Keys)
      requires first == LinksOf(h)
      requires had == ContentsOf(items)
      ensures Ready({})
    {
      hide Walkable, KeptWell, Walked;
      forall it | it in items ensures SettledItem(it) { assert Nests(it, h); }
    }

    /** The marks are the ids of the items in `dead`. */
    ghost predicate Valid()
      reads this`marked, this`dead, items`id
    {
      && (forall c :: c in marked ==> marked[c] != [])
      && (forall c, k :: c in marked && 0 <= k < |marked[c]| ==> Names(c, marked[c][k]))
      && (forall m :: m in dead && m in items ==> m.id.client in marked && m.id.clock in marked[m.id.client])
    }

    ghost predicate Names(client: nat, clock: nat)
      reads this`dead, items`id
    {
      exists m :: m in dead && m in items && m.id == ID(client, clock)
    }

    /** All marks are those of doomed items. */
    ghost predicate Marks()
      reads this`marked, this`dead, items`id, items`deleted, items`keep
    {
      dead <= items && (forall m :: m in dead ==> Doomed(m, closed)) && Valid()
    }

    /** All that was deleted of what was nested in `it` is marked. */
    ghost predicate Reaped(it: Item)
      reads this`dead, items`deleted
    {
      it in nested ==> forall m :: m in nested[it] && m in items && m.deleted ==> m in dead
    }

    /** What was nested in `it` is there as it was, or all that was deleted of it is marked. */
    ghost predicate SettledItem(it: Item)
      reads this`dead, items`deleted, it`content
      reads h.Keys`start, h.Keys`entries, h.Keys`chains, h.Keys`items
    {
      || Reaped(it)
      || (it.content.Type? && it.content.branch in h && it in nested && Walked(it.content.branch) == nested[it])
    }

    /** So it is for all items but those that are being collected, and what is marked is collected. */
    ghost predicate Settled(open: set<Item>)
      reads this`dead, items`deleted, items`content
      reads h.Keys`start, h.Keys`entries, h.Keys`chains, h.Keys`items
    {
      && (forall it :: it in items && it !in open ==> SettledItem(it))
      && (forall m :: m in dead && m in items ==> Reaped(m))
    }

    /** What is marked is in a collection whose holder is collected, too. */
    ghost predicate Caused(open: set<Item>)
      reads this`dead, this`lost, items`parent, h.Keys`item
    {
      forall m :: m in dead && m in items ==>
        m.parent != null && m.parent in h && m.parent.item in dead + lost + open
    }

    ghost predicate Ready(open: set<Item>)
      reads this, items, h.Keys
    {
      && Marks() && Tree(items, h) && (closed ==> KeepClosed(items, h.Keys))
      && Settled(open) && Caused(open) && lost <= scope && lost <= DeadIn(items)
      && OnlyDoomedEmptied(items, h, closed, first) && OnlyLost(items, lost, had) && had.Keys == items
    }

    /** The collections of these items are as they were. */
    twostate predicate Untouched(open: set<Item>)
      reads h.Keys`item, h.Keys`start, h.Keys`entries
    {
      forall c :: c in h && c.item in open ==> c.start == old(c.start) && c.entries == old(c.entries)
    }

    method Mark(it: Item)
      requires Valid() && it in items
      modifies this`marked, this`dead
      ensures Valid() && dead == old(dead) + {it}
    {
      var c := it.id.client;
      var clocks := (if c in marked then marked[c] else []) + [it.id.clock];
      marked := marked[c := clocks];
      dead := dead + {it};
      assert clocks[|clocks| - 1] == it.id.clock;
      forall d, k | d in marked && 0 <= k < |marked[d]| ensures Names(d, marked[d][k]) {
        if d == c && k == |clocks| - 1 {
          assert it in dead && it.id == ID(c, clocks[k]);
        } else {
          assert old(Names(d, marked[d][k]));
        }
      }
    }

    /** Collects a deleted item: it loses its content, or is marked if what held it was deleted. */
    method Collect(it: Item, parentGc: bool, ghost open: set<Item>)
      requires Ready(open) && it in items && (closed ==> !it.keep)
      requires if parentGc then HeldBy(it, open) else it in scope && !it.keep
      requires forall o :: o in open ==> Height(o, h) > Height(it, h)
      modifies this, h.Keys`start, h.Keys`entries
      modifies (if parentGc then {} else {it})`content, (if parentGc then {} else {it})`countable
      ensures Ready(open) && Untouched(open) && old(dead) <= dead && old(lost) <= lost
      ensures !it.deleted ==> dead == old(dead) && it.content == old(it.content) && it.countable == old(it.countable)
      ensures it.deleted ==> Reaped(it) && if parentGc then it in dead else it in lost
      decreases Height(it, h), 1
    {
      hide Ready, KeptWell, Nests, Walkable, Valid, Names;
      if it.deleted {
        Holder(it, open);
        if it.content.Type? { CollectAll(it.content.branch, open + {it}); }
        if parentGc {
          MarkDead(it, open + {it});
        } else {
          Clear(it, open + {it});
        }
        Closing(it, open);
      }
    }

    /** The collection that `it` is in is being collected. */
    ghost predicate HeldBy(it: Item, open: set<Item>)
      reads it`parent, h.Keys`item
    {
      it.parent != null && it.parent in h && it.parent.item in open
    }

    /** Opens an item that is to be collected. */
    lemma Holder(it: Item, open: set<Item>)
      requires Ready(open) && it in items && it !in open
      ensures it.content.Type? ==> it.content.branch in h && it.content.branch.item == it
      ensures Ready(open + {it}) && SettledItem(it) && (open + {it}) - {it} == open
    {
      assert Nests(it, h);
    }

    lemma Closing(it: Item, open: set<Item>)
      requires Ready(open + {it}) && Reaped(it) && it in dead + lost
      ensures Ready(open)
    {
    }

    method MarkDead(it: Item, ghost open: set<Item>)
      requires Ready(open) && it in items && it.deleted && (closed ==> !it.keep) && HeldBy(it, open)
      requires SettledItem(it) && (it.content.Type? ==> Reaped(it))
      modifies this`marked, this`dead
      ensures Ready(open) && Reaped(it) && dead == old(dead) + {it}
    {
      hide KeptWell, Nests, Walkable, Valid, Names, Tree;
      Mark(it);
      forall o | o in items && o !in open ensures SettledItem(o) { assert old(SettledItem(o)); }
    }

    method Clear(it: Item, ghost open: set<Item>)
      requires Ready(open) && it in items && it in scope && it.deleted && !it.keep && it in open
      requires SettledItem(it) && (it.content.Type? ==> Reaped(it))
      modifies it`content, it`countable, this`lost
      ensures Ready(open) && Reaped(it) && lost == old(lost) + {it}
    {
      hide Tree, Marks, KeepClosed, OnlyDoomedEmptied, Reaped, Settled, SettledItem;
      ClearContent(it, open);
      lost := lost + {it};
    }

    method ClearContent(it: Item, ghost open: set<Item>)
      requires Tree(items, h) && Settled(open) && it in items && it in open
      requires SettledItem(it) && (it.content.Type? ==> Reaped(it))
      modifies it`content, it`countable
      ensures Tree(items, h) && Settled(open) && Reaped(it) && it.content == Deleted(it.len) && !it.countable
    {
      hide Walkable, Reaped, Walked;
      it.content, it.countable := Deleted(it.len), false;
      forall o | o in items ensures Nests(o, h) {
        assert o != it ==> old(Nests(o, h));
      }
      forall o | o in items && o !in open ensures SettledItem(o) { assert old(SettledItem(o)); }
    }

    /** All that was deleted of a chain is marked. */
    ghost predicate ChainDead(b: Branch, key: Option<string>)
      reads this`dead, b`chains, b.Chain(key)`deleted
    {
      forall m :: m in b.Chain(key) && m.deleted ==> m in dead
    }

    /** What is asked for to collect what is nested in the holder of `b`. */
    ghost predicate Opened(b: Branch, open: set<Item>)
      reads this, items, h.Keys, open`content
    {
      && Ready(open) && b in h && b.item != null && b.item in items && b.item in open && Doomed(b.item, closed)
      && forall o :: o in open ==> Height(o, h) > h[b]
    }

    /** Collects all items of a collection that was held by a deleted item, and empties it. */
    method CollectAll(b: Branch, ghost open: set<Item>)
      requires Opened(b, open) && b.item.content == Type(b) && SettledItem(b.item)
      modifies this, h.Keys`start, h.Keys`entries
      ensures Opened(b, open) && Untouched(open - {b.item}) && old(dead) <= dead && old(lost) <= lost
      ensures b.start == null && b.entries == map[] && Reaped(b.item)
      ensures forall m :: m in old(Walked(b)) && m.deleted ==> m in dead
      decreases h[b] + 1, 0
    {
      hide Opened, Walkable, Nests;
      InOpen(b, open);
      ghost var held, settled := Walked(b), Reaped(b.item);
      CollectSequence(b, open);
      CollectKeys(b, open);
      if !settled { assert held == nested[b.item]; }
    }

    method CollectSequence(b: Branch, ghost open: set<Item>)
      requires Opened(b, open)
      modifies this, h.Keys`start, h.Keys`entries
      ensures Opened(b, open) && Untouched(open - {b.item}) && old(dead) <= dead && old(lost) <= lost
      ensures b.start == null && b.entries == old(b.entries)
      ensures old(b.start) != null ==> ChainDead(b, None)
      decreases h[b], 5
    {
      hide Opened;
      InOpen(b, open);
      var first := TakeStart(b, open);
      if first != null { CollectRight(first, b, open); }
    }

    method CollectKeys(b: Branch, ghost open: set<Item>)
      requires Opened(b, open)
      modifies this, h.Keys`start, h.Keys`entries
      ensures Opened(b, open) && Untouched(open - {b.item}) && old(dead) <= dead && old(lost) <= lost
      ensures b.start == old(b.start) && b.entries == map[]
      ensures forall key :: key in old(b.entries) ==> ChainDead(b, Some(key))
      decreases h[b], 5
    {
      hide Opened;
      InOpen(b, open);
      var entries := TakeEntries(b, open);
      CollectEntries(entries, b, open);
    }

    lemma InOpen(b: Branch, open: set<Item>)
      requires Opened(b, open)
      ensures b in h && b.item != null && b.item in items && b.item in open
    {
    }

    method CollectEntries(entries: map<string, Item>, b: Branch, ghost open: set<Item>)
      requires Opened(b, open)
      requires forall key :: key in entries ==> EndsWith(b.Chain(Some(key)), entries[key])
      modifies this, h.Keys`start, h.Keys`entries
      ensures Opened(b, open) && Untouched(open) && old(dead) <= dead && old(lost) <= lost
      ensures forall key :: key in entries ==> ChainDead(b, Some(key))
      decreases h[b], 4
    {
      hide Opened, EndsWith;
      InOpen(b, open);
      var keys := entries.Keys;
      while keys != {}
        invariant Opened(b, open) && Untouched(open) && old(dead) <= dead && old(lost) <= lost
        invariant keys <= entries.Keys
        invariant forall key :: key in entries && key !in keys ==> ChainDead(b, Some(key))
      {
        var key :| key in keys;
        CollectLeft(entries[key], b, Some(key), open);
        keys := keys - {key};
      }
    }

    /** Collects from the first block of the sequence on. */
    method CollectRight(first: Item, b: Branch, ghost open: set<Item>)
      requires Opened(b, open) && first == At(b.Chain(None), 0)
      modifies this, h.Keys`start, h.Keys`entries
      ensures Opened(b, open) && Untouched(open) && old(dead) <= dead && old(lost) <= lost
      ensures ChainDead(b, None)
      decreases h[b], 3
    {
      hide Opened, Height;
      InOpen(b, open);
      var curr: Item? := first;
      ghost var j, ch := 0, b.Chain(None);
      while curr != null
        invariant Opened(b, open) && Untouched(open) && old(dead) <= dead && old(lost) <= lost
        invariant 0 <= j <= |ch| && curr == At(ch, j)
        invariant forall k :: 0 <= k < j && ch[k].deleted ==> ch[k] in dead
        decreases |ch| - j
      {
        Child(b, None, j, open);
        var next := curr.right;
        CollectChild(curr, b, open);
        curr, j := next, j + 1;
      }
    }

    /** Collects from the last block of a key's chain back. */
    method CollectLeft(last: Item, b: Branch, ghost key: Option<string>, ghost open: set<Item>)
      requires Opened(b, open) && EndsWith(b.Chain(key), last)
      modifies this, h.Keys`start, h.Keys`entries
      ensures Opened(b, open) && Untouched(open) && old(dead) <= dead && old(lost) <= lost
      ensures ChainDead(b, key)
      decreases h[b], 3
    {
      hide Opened, Height;
      InOpen(b, open);
      var curr: Item? := last;
      ghost var j, ch := |b.Chain(key)| - 1, b.Chain(key);
      while curr != null
        invariant Opened(b, open) && Untouched(open) && old(dead) <= dead && old(lost) <= lost
        invariant -1 <= j < |ch| && curr == At(ch, j)
        invariant forall k :: j < k < |ch| && ch[k].deleted ==> ch[k] in dead
        decreases j
      {
        Child(b, key, j, open);
        var next := curr.left;
        CollectChild(curr, b, open);
        curr, j := next, j - 1;
      }
    }

    /** Collects an item of a collection that is being collected. */
    method CollectChild(it: Item, ghost b: Branch, ghost open: set<Item>)
      requires Opened(b, open) && it in items && Height(it, h) <= h[b] && (closed ==> !it.keep) && it.parent == b
      modifies this, h.Keys`start, h.Keys`entries
      ensures Opened(b, open) && Untouched(open) && old(dead) <= dead && old(lost) <= lost
      ensures it.deleted ==> it in dead
      decreases h[b], 2
    {
      hide Ready, Height;
      Collect(it, true, open);
    }

    method TakeStart(b: Branch, ghost open: set<Item>) returns (first: Item?)
      requires Opened(b, open)
      modifies b`start
      ensures Opened(b, open) && first == old(b.start) && b.start == null
      ensures first != null ==> first == At(b.Chain(None), 0)
    {
      hide Doomed, Branch.ChainOk, Marks, KeepClosed, OnlyLost, Reaped, Height;
      assert Walkable(b);
      first := b.start;
      b.start := null;
      forall c | c in h ensures Walkable(c) {
        assert old(Walkable(c));
      }
      forall o | o in items && o !in open ensures SettledItem(o) { Elsewhere(o, b, open); assert old(SettledItem(o)); }
    }

    method TakeEntries(b: Branch, ghost open: set<Item>) returns (entries: map<string, Item>)
      requires Opened(b, open)
      modifies b`entries
      ensures Opened(b, open) && entries == old(b.entries) && b.entries == map[]
      ensures forall key :: key in entries ==> EndsWith(b.Chain(Some(key)), entries[key])
    {
      hide Doomed, Branch.ChainOk, Marks, KeepClosed, OnlyLost, Reaped, Height, Nests;
      assert Walkable(b);
      entries := b.entries;
      b.entries := map[];
      forall c | c in h ensures Walkable(c) {
        assert old(Walkable(c));
      }
      forall o | o in items && o !in open ensures SettledItem(o) { Elsewhere(o, b, open); assert old(SettledItem(o)); }
    }

    /** Another item does not hold the same collection. */
    lemma Elsewhere(o: Item, b: Branch, open: set<Item>)
      requires (forall it :: it in items ==> Nests(it, h)) && o in items && o !in open && b.item in open
      ensures o.content.Type? ==> o.content.branch != b
    {
      assert Nests(o, h);
    }

    /** An item of a collection is lower than it, and if its holder is not kept, not kept either. */
    lemma Child(b: Branch, key: Option<string>, j: int, open: set<Item>)
      requires Opened(b, open) && 0 <= j < |b.Chain(key)|
      ensures var ch := b.Chain(key);
        && ch[j] in items && Height(ch[j], h) <= h[b] && (closed ==> !ch[j].keep) && ch[j].parent == b
        && ch[j].right == At(ch, j + 1) && ch[j].left == At(ch, j - 1)
    {
      hide Marks, OnlyLost, OnlyDoomedEmptied, Settled;
      var ch := b.Chain(key);
      assert Walkable(b);
      assert b.ChainOk(key, b.chains[key]) && LinkedAt(ch, j);
      assert ch[j] in b.items && ch[j].parent == b;
      assert Nests(ch[j], h);
      if closed { assert KeptWell(items, h.Keys, ch[j]); }
    }
  }

  // ----- the sweep

  function Start(cell: Cell): ID
    reads (if cell.ItemCell? then {cell.item} else {})`id
  {
    match cell
    case ItemCell(it) => it.id
    case GcCell(id, _) => id
    case SkipCell(id, _) => id
  }

  function Length(cell: Cell): nat
    reads (if cell.ItemCell? then {cell.item} else {})`len
  {
    match cell
    case ItemCell(it) => it.len
    case GcCell(_, n) => n
    case SkipCell(_, n) => n
  }

  predicate Covers(cell: Cell, clock: nat)
    reads (if cell.ItemCell? then {cell.item} else {})`id, (if cell.ItemCell? then {cell.item} else {})`len
  {
    Start(cell).clock <= clock < Start(cell).clock + Length(cell)
  }

  /** The cell at `i` is not empty, and starts where the one before it ends. */
  ghost predicate Follows(cells: seq<Cell>, client: nat, i: nat)
    requires i < |cells|
    reads ItemsOf(cells)`id, ItemsOf(cells)`len
  {
    && Start(cells[i]).client == client && Length(cells[i]) > 0
    && Start(cells[i]).clock == if i == 0 then 0 else Start(cells[i - 1]).clock + Length(cells[i - 1])
  }

  /** The cells of a client cover its clocks from 0 on, without gaps. */
  ghost predicate Tiles(cells: seq<Cell>, client: nat)
    reads ItemsOf(cells)`id, ItemsOf(cells)`len
  {
    forall i :: 0 <= i < |cells| ==> Follows(cells, client, i)
  }

  lemma {:induction false} TilesRise(cells: seq<Cell>, client: nat, i: nat, j: nat)
    requires Tiles(cells, client) && i < j < |cells|
    ensures Start(cells[i]).clock + Length(cells[i]) <= Start(cells[j]).clock
  {
    assert Follows(cells, client, j) && Follows(cells, client, j - 1);
    if i < j - 1 { TilesRise(cells, client, i, j - 1); }
  }

  lemma CoversOne(cells: seq<Cell>, client: nat, i: nat, clock: nat)
    requires Tiles(cells, client) && i < |cells| && Covers(cells[i], clock)
    ensures forall j :: 0 <= j < |cells| && Covers(cells[j], clock) ==> i == j
  {
    forall j | 0 <= j < |cells| && Covers(cells[j], clock) ensures i == j {
      if i < j { TilesRise(cells, client, i, j); }
      if j < i { TilesRise(cells, client, j, i); }
    }
  }

  /** The position of the cell that covers `clock`, by bisection. */
  method FindIndex(cells: seq<Cell>, clock: nat, ghost client: nat) returns (r: Option<nat>)
    requires Tiles(cells, client) && cells != []
    ensures r.Some? ==> r.value < |cells| && Covers(cells[r.value], clock)
    ensures r.None? ==> forall i :: 0 <= i < |cells| ==> !Covers(cells[i], clock)
  {
    hide Tiles;
    var left, right: int := 0, |cells| - 1;
    var start, end := Start(cells[right]).clock, Start(cells[right]).clock + Length(cells[right]) - 1;
    CellAt(cells, client, right);
    CellAt(cells, client, 0);
    if start == clock { return Some(right); }
    if clock > end {
      NoneBefore(cells, client, right, clock);
      return None;
    }
    var mid := (clock / end) * right;
    Middle01(clock, end, right);
    while left <= right
      invariant Tiles(cells, client) && 0 <= left <= right + 1 <= |cells| && (left <= right ==> left <= mid <= right)
      invariant left == 0 || NoneUpTo(cells, left - 1, clock)
      invariant right == |cells| - 1 || NoneFrom(cells, right + 1, clock)
      decreases right - left
    {
      CellAt(cells, client, mid);
      start, end := Start(cells[mid]).clock, Start(cells[mid]).clock + Length(cells[mid]) - 1;
      if start <= clock {
        if clock <= end { return Some(mid); }
        NoneBefore(cells, client, mid, clock);
        left := mid + 1;
      } else {
        NoneAfter(cells, client, mid, clock);
        right := mid - 1;
      }
      mid := (left + right) / 2;
    }
    return None;
  }

  ghost predicate NoneUpTo(cells: seq<Cell>, i: nat, clock: nat)
    requires i < |cells|
    reads ItemsOf(cells)`id, ItemsOf(cells)`len
  {
    Start(cells[i]).clock <= clock && forall j :: 0 <= j <= i ==> !Covers(cells[j], clock)
  }

  ghost predicate NoneFrom(cells: seq<Cell>, i: nat, clock: nat)
    requires i < |cells|
    reads ItemsOf(cells)`id, ItemsOf(cells)`len
  {
    Start(cells[i]).clock > clock && forall j :: i <= j < |cells| ==> !Covers(cells[j], clock)
  }

  lemma NoneBefore(cells: seq<Cell>, client: nat, i: nat, clock: nat)
    requires Tiles(cells, client) && i < |cells| && Start(cells[i]).clock + Length(cells[i]) <= clock
    ensures NoneUpTo(cells, i, clock)
  {
    forall j | 0 <= j < i ensures !Covers(cells[j], clock) { TilesRise(cells, client, j, i); }
  }

  lemma NoneAfter(cells: seq<Cell>, client: nat, i: nat, clock: nat)
    requires Tiles(cells, client) && i < |cells| && clock < Start(cells[i]).clock
    ensures NoneFrom(cells, i, clock)
  {
    forall j | i < j < |cells| ensures !Covers(cells[j], clock) { TilesRise(cells, client, i, j); }
  }

  lemma CellAt(cells: seq<Cell>, client: nat, i: nat)
    requires Tiles(cells, client) && i < |cells|
    ensures Length(cells[i]) > 0 && Start(cells[i]).client == client
    ensures i == 0 ==> Start(cells[i]).clock == 0
  {
    assert Follows(cells, client, i);
  }

  lemma Middle01(clock: nat, end: nat, right: nat)
    requires 0 < end && clock <= end
    ensures 0 <= (clock / end) * right <= right
  {
    if clock < end { assert clock / end == 0; } else { assert clock / end == 1; }
  }

  ghost predicate Hit(cell: Cell, clocks: seq<nat>)
    reads (if cell.ItemCell? then {cell.item} else {})`id, (if cell.ItemCell? then {cell.item} else {})`len
  {
    exists k :: 0 <= k < |clocks| && Covers(cell, clocks[k])
  }

  /** What is left of a cell when some clocks are marked. */
  ghost function Swept(cell: Cell, clocks: seq<nat>): (r: Cell)
    reads (if cell.ItemCell? then {cell.item} else {})`id, (if cell.ItemCell? then {cell.item} else {})`len
    reads (if cell.ItemCell? then {cell.item} else {})`deleted
    ensures Start(r) == Start(cell) && Length(r) == Length(cell)
  {
    if cell.ItemCell? && cell.item.deleted && Hit(cell, clocks) then GcCell(cell.item.id, cell.item.len) else cell
  }

  ghost predicate SweptBy(cells: seq<Cell>, clocks: seq<nat>, r: seq<Cell>)
    reads ItemsOf(cells)`id, ItemsOf(cells)`len, ItemsOf(cells)`deleted
  {
    |r| == |cells| && forall i :: 0 <= i < |cells| ==> r[i] == Swept(cells[i], clocks)
  }

  /** The sweep keeps the ranges of clocks. */
  lemma SweepTiles(cells: seq<Cell>, clocks: seq<nat>, r: seq<Cell>, client: nat)
    requires Tiles(cells, client) && SweptBy(cells, clocks, r)
    ensures Tiles(r, client)
  {
    forall i | 0 <= i < |r| ensures Follows(r, client, i) {
      assert Follows(cells, client, i);
      assert r[i] == Swept(cells[i], clocks) && (i > 0 ==> r[i - 1] == Swept(cells[i - 1], clocks));
    }
  }

  lemma SweepNone(cells: seq<Cell>)
    ensures SweptBy(cells, [], cells)
  {
  }

  lemma HitNext(cell: Cell, clocks: seq<nat>, clock: nat)
    ensures Hit(cell, clocks + [clock]) <==> Hit(cell, clocks) || Covers(cell, clock)
  {
    var t := clocks + [clock];
    if Hit(cell, clocks) {
      var k :| 0 <= k < |clocks| && Covers(cell, clocks[k]);
      assert t[k] == clocks[k];
    }
    if Covers(cell, clock) { assert t[|clocks|] == clock; }
  }

  /** One more mark: `i` is the cell that covers it, if there is one. */
  lemma SweepNext(cells: seq<Cell>, client: nat, clocks: seq<nat>, r: seq<Cell>, clock: nat, i: Option<nat>)
    requires Tiles(cells, client) && SweptBy(cells, clocks, r)
    requires i.Some? ==> i.value < |r| && Covers(r[i.value], clock)
    requires i.None? ==> forall j :: 0 <= j < |r| ==> !Covers(r[j], clock)
    ensures var hit := i.Some? && r[i.value].ItemCell? && r[i.value].item.deleted;
      SweptBy(cells, clocks + [clock],
              if hit then r[i.value := GcCell(r[i.value].item.id, r[i.value].item.len)] else r)
  {
    hide Hit, Tiles;
    var hit := i.Some? && r[i.value].ItemCell? && r[i.value].item.deleted;
    var t := if hit then r[i.value := GcCell(r[i.value].item.id, r[i.value].item.len)] else r;
    if i.Some? { CoversOne(cells, client, i.value, clock); }
    forall j | 0 <= j < |cells| ensures t[j] == Swept(cells[j], clocks + [clock]) {
      HitNext(cells[j], clocks, clock);
      assert r[j] == Swept(cells[j], clocks);
    }
  }

  /** Replaces the deleted items of a client whose ids are marked. */
  method CollectClient(cells: seq<Cell>, clocks: seq<nat>, ghost client: nat) returns (r: seq<Cell>)
    requires Tiles(cells, client) && cells != []
    ensures SweptBy(cells, clocks, r)
  {
    hide Hit, Covers;
    r := cells;
    SweepNone(cells);
    for k := 0 to |clocks|
      invariant Tiles(cells, client) && SweptBy(cells, clocks[..k], r) && r != []
    {
      SweepTiles(cells, clocks[..k], r, client);
      ghost var items := ItemsOf(cells);
      var i := FindIndex(r, clocks[k], client);
      assert items == ItemsOf(cells);
      SweepNext(cells, client, clocks[..k], r, clocks[k], i);
      assert clocks[..k] + [clocks[k]] == clocks[..k + 1];
      if i.Some? && r[i.value].ItemCell? && r[i.value].item.deleted {
        r := r[i.value := GcCell(r[i.value].item.id, r[i.value].item.len)];
      }
    }
    assert clocks[..|clocks|] == clocks;
  }

  // ----- a whole document

  /** The clocks of every client are covered without gaps. */
  ghost predicate Covered(clients: map<nat, seq<Cell>>)
    reads ItemsIn(clients)`id, ItemsIn(clients)`len
  {
    forall c :: c in clients ==> clients[c] != [] && Tiles(clients[c], c)
  }

  ghost function ItemsIn(clients: map<nat, seq<Cell>>): set<Item> {
    set c, i | c in clients && 0 <= i < |clients[c]| && clients[c][i].ItemCell? :: clients[c][i].item
  }

  function Clocks(marked: map<nat, seq<nat>>, c: nat): seq<nat> {
    if c in marked then marked[c] else []
  }

  /** Every cell of every client is what the sweep leaves of it. */
  ghost predicate AllSwept(was: map<nat, seq<Cell>>, marked: map<nat, seq<nat>>, now: map<nat, seq<Cell>>)
    reads ItemsIn(was)`id, ItemsIn(was)`len, ItemsIn(was)`deleted
  {
    now.Keys == was.Keys && forall c :: c in was ==> SweptBy(was[c], Clocks(marked, c), now[c])
  }

  /** The sweep keeps the clocks covered. */
  lemma SweepCovers(was: map<nat, seq<Cell>>, marked: map<nat, seq<nat>>, now: map<nat, seq<Cell>>)
    requires Covered(was) && AllSwept(was, marked, now)
    ensures Covered(now)
  {
    forall c | c in now ensures now[c] != [] && Tiles(now[c], c) {
      SweepTiles(was[c], Clocks(marked, c), now[c], c);
    }
  }

  ghost predicate AllIn(clients: map<nat, seq<Cell>>, items: set<Item>) {
    ItemsIn(clients) <= items && forall c :: c in clients ==> ItemsOf(clients[c]) <= items
  }

  /** Replaces the deleted items whose ids are marked. */
  method CollectMarked(gc: GCCollector, clients: map<nat, seq<Cell>>, ghost items: set<Item>)
    returns (r: map<nat, seq<Cell>>)
    requires Covered(clients) && gc.marked.Keys <= clients.Keys && AllIn(clients, items)
    ensures AllSwept(clients, gc.marked, r)
  {
    hide Tiles, SweptBy;
    r := clients;
    var todo := gc.marked.Keys;
    forall c | c in clients ensures SweptBy(clients[c], [], r[c]) { SweepNone(clients[c]); }
    while todo != {}
      invariant todo <= gc.marked.Keys && r.Keys == clients.Keys && Covered(clients)
      invariant forall c :: c in clients ==> SweptBy(clients[c], if c in todo then [] else Clocks(gc.marked, c), r[c])
    {
      var c :| c in todo;
      var cells := CollectClient(clients[c], gc.marked[c], c);
      r := r[c := cells];
      todo := todo - {c};
    }
  }

  // ----- marking

  /** The item in a cell has lost its content, if it is deleted and not kept. */
  ghost predicate Done(gc: GCCollector, cell: Cell)
    reads gc`lost, (if cell.ItemCell? then {cell.item} else {})`deleted
    reads (if cell.ItemCell? then {cell.item} else {})`keep
  {
    cell.ItemCell? && cell.item.deleted && !cell.item.keep ==> cell.item in gc.lost
  }

  /** Collects the item in a cell, if it is deleted and not kept. */
  method MarkCell(gc: GCCollector, cells: seq<Cell>, k: nat)
    requires gc.Ready({}) && ItemsOf(cells) <= gc.items && k < |cells|
    requires cells[k].ItemCell? ==> cells[k].item in gc.scope
    modifies gc, gc.items`content, gc.items`countable, gc.h.Keys`start, gc.h.Keys`entries
    ensures gc.Ready({}) && old(gc.lost) <= gc.lost && Done(gc, cells[k])
  {
    hide GCCollector.Ready;
    if cells[k].ItemCell? {
      assert cells[k].item in ItemsOf(cells);
      if cells[k].item.deleted && !cells[k].item.keep { gc.Collect(cells[k].item, false, {}); }
    }
  }

  /** Marks what one client has deleted. */
  method MarkClient(gc: GCCollector, cells: seq<Cell>)
    requires gc.Ready({}) && ItemsOf(cells) <= gc.items && ItemsOf(cells) <= gc.scope
    modifies gc, gc.items`content, gc.items`countable, gc.h.Keys`start, gc.h.Keys`entries
    ensures gc.Ready({}) && old(gc.lost) <= gc.lost && forall i :: 0 <= i < |cells| ==> Done(gc, cells[i])
  {
    hide GCCollector.Ready;
    for k := 0 to |cells|
      invariant gc.Ready({}) && old(gc.lost) <= gc.lost && forall i :: 0 <= i < k ==> Done(gc, cells[i])
    {
      assert cells[k].ItemCell? ==> cells[k].item in ItemsOf(cells);
      MarkCell(gc, cells, k);
    }
  }

  /** A range of clocks, without its end. */
  datatype Range = Range(start: nat, end: nat)

  /**
    The walk that starts in the cell that covers the start of `r` comes by the cell at `i`: the walk takes the
    first cell to begin at the start of the range, and goes on as long as that seems to be in the range.
   */
  ghost predicate Reaches(cells: seq<Cell>, r: Range, i: nat)
    requires i < |cells|
    reads ItemsOf(cells)`id, ItemsOf(cells)`len
  {
    exists j :: 0 <= j <= i && Covers(cells[j], r.start)
      && Ends(cells[i]) + (r.start - Start(cells[j]).clock) <= r.end
  }

  /** Marks the blocks of a range of clocks, as far as the walk through the cells reaches. */
  method MarkRange(gc: GCCollector, cells: seq<Cell>, r: Range, ghost client: nat)
    requires cells != [] && Tiles(cells, client) && gc.Ready({}) && ItemsOf(cells) <= gc.items
    requires forall i :: 0 <= i < |cells| && cells[i].ItemCell? && Reaches(cells, r, i) ==> cells[i].item in gc.scope
    modifies gc, gc.items`content, gc.items`countable, gc.h.Keys`start, gc.h.Keys`entries
    ensures gc.Ready({}) && old(gc.lost) <= gc.lost
    ensures forall i :: 0 <= i < |cells| && Reaches(cells, r, i) ==> Done(gc, cells[i])
  {
    hide GCCollector.Ready, Tiles;
    ghost var all := ItemsOf(cells);
    var found := FindIndex(cells, r.start, client);
    assert all == ItemsOf(cells);
    if found.None? { return; }
    ghost var n := MarkFrom(gc, cells, found.value, r, client);
    forall i | 0 <= i < |cells| && Reaches(cells, r, i) ensures Done(gc, cells[i]) {
      Reached(cells, client, found.value, r, n, i);
    }
  }

  function Ends(cell: Cell): nat
    reads (if cell.ItemCell? then {cell.item} else {})`id, (if cell.ItemCell? then {cell.item} else {})`len
  {
    Start(cell).clock + Length(cell)
  }

  /** How far off the walk is: the start of the range is not that of its first cell. */
  ghost predicate Within(cells: seq<Cell>, found: nat, r: Range, i: nat)
    requires found < |cells| && i < |cells|
    reads ItemsOf(cells)`id, ItemsOf(cells)`len
  {
    Ends(cells[i]) + (r.start - Start(cells[found]).clock) <= r.end
  }

  /** The loop of `MarkRange`; `n` is where it stops. */
  method MarkFrom(gc: GCCollector, cells: seq<Cell>, found: nat, r: Range, ghost client: nat) returns (ghost n: nat)
    requires Tiles(cells, client) && found < |cells| && Covers(cells[found], r.start)
    requires gc.Ready({}) && ItemsOf(cells) <= gc.items
    requires forall i :: 0 <= i < |cells| && cells[i].ItemCell? && Reaches(cells, r, i) ==> cells[i].item in gc.scope
    modifies gc, gc.items`content, gc.items`countable, gc.h.Keys`start, gc.h.Keys`entries
    ensures gc.Ready({}) && old(gc.lost) <= gc.lost && Tiles(cells, client)
    ensures found <= n <= |cells| && forall j :: found <= j < n ==> Done(gc, cells[j])
    ensures n < |cells| ==> !Within(cells, found, r, n)
  {
    hide GCCollector.Ready, Tiles, Follows, ItemsOf, Reaches;
    var i, start := found, r.start;
    while i < |cells|
      invariant found <= i <= |cells| && Tiles(cells, client)
      invariant i < |cells| ==> start - r.start == Start(cells[i]).clock - Start(cells[found]).clock
      invariant gc.Ready({}) && old(gc.lost) <= gc.lost && forall j :: found <= j < i ==> Done(gc, cells[j])
      invariant forall j :: 0 <= j < |cells| && cells[j].ItemCell? && Reaches(cells, r, j) ==> cells[j].item in gc.scope
    {
      start := start + Length(cells[i]);
      if start > r.end { break; }
      ReachesHere(cells, found, r, i);
      if i + 1 < |cells| { NextStart(cells, client, i); }
      MarkCell(gc, cells, i);
      i := i + 1;
    }
    n := i;
  }

  lemma ReachesHere(cells: seq<Cell>, found: nat, r: Range, i: nat)
    requires found <= i < |cells| && Covers(cells[found], r.start) && Within(cells, found, r, i)
    ensures Reaches(cells, r, i)
  {
  }

  /** The walk that began at `found` and stopped at `n` came by all that it should. */
  lemma Reached(cells: seq<Cell>, client: nat, found: nat, r: Range, n: nat, i: nat)
    requires Tiles(cells, client) && found < |cells| && Covers(cells[found], r.start)
    requires n < |cells| ==> !Within(cells, found, r, n)
    requires i < |cells| && Reaches(cells, r, i)
    ensures found <= i < n
  {
    var j :| 0 <= j <= i && Covers(cells[j], r.start) && Ends(cells[i]) + (r.start - Start(cells[j]).clock) <= r.end;
    CoversOne(cells, client, found, r.start);
    if n <= i { BeyondEnd(cells, client, n, i); }
  }

  lemma NextStart(cells: seq<Cell>, client: nat, i: nat)
    requires Tiles(cells, client) && i + 1 < |cells|
    ensures Start(cells[i + 1]).clock == Start(cells[i]).clock + Length(cells[i])
  {
    assert Follows(cells, client, i + 1);
  }

  lemma BeyondEnd(cells: seq<Cell>, client: nat, i: nat, j: nat)
    requires Tiles(cells, client) && i <= j < |cells|
    ensures Ends(cells[i]) <= Ends(cells[j])
  {
    if i < j { TilesRise(cells, client, i, j); }
  }

  /** The cell at `i` is reached from one of the ranges. */
  ghost predicate InScope(cells: seq<Cell>, ranges: seq<Range>, i: nat)
    requires i < |cells|
    reads ItemsOf(cells)`id, ItemsOf(cells)`len
  {
    exists k :: 0 <= k < |ranges| && Reaches(cells, ranges[k], i)
  }

  /** A range that starts where a cell starts reaches exactly the cells that it contains. */
  lemma WholeRange(cells: seq<Cell>, client: nat, r: Range, j: nat, i: nat)
    requires Tiles(cells, client) && j < |cells| && i < |cells| && Start(cells[j]).clock == r.start
    ensures Reaches(cells, r, i) <==> r.start <= Start(cells[i]).clock && Ends(cells[i]) <= r.end
  {
    CellAt(cells, client, j);
    CoversOne(cells, client, j, r.start);
    if i < j { TilesRise(cells, client, i, j); CellAt(cells, client, i); }
    if j < i { TilesRise(cells, client, j, i); }
  }

  /** Marks the blocks of the ranges of one client, the last range first. */
  method MarkRanges(gc: GCCollector, cells: seq<Cell>, ranges: seq<Range>, ghost client: nat)
    requires cells != [] && Tiles(cells, client) && gc.Ready({}) && ItemsOf(cells) <= gc.items
    requires forall i :: 0 <= i < |cells| && cells[i].ItemCell? && InScope(cells, ranges, i) ==>
      cells[i].item in gc.scope
    modifies gc, gc.items`content, gc.items`countable, gc.h.Keys`start, gc.h.Keys`entries
    ensures gc.Ready({}) && old(gc.lost) <= gc.lost
    ensures forall i :: 0 <= i < |cells| && InScope(cells, ranges, i) ==> Done(gc, cells[i])
  {
    hide GCCollector.Ready, Tiles, Reaches, ItemsOf;
    for k := |ranges| downto 0
      invariant Tiles(cells, client) && gc.Ready({}) && old(gc.lost) <= gc.lost
      invariant forall i :: 0 <= i < |cells| && cells[i].ItemCell? && InScope(cells, ranges, i) ==>
        cells[i].item in gc.scope
      invariant forall i, m :: 0 <= i < |cells| && k <= m < |ranges| && Reaches(cells, ranges[m], i) ==>
        Done(gc, cells[i])
    {
      MarkRange(gc, cells, ranges[k], client);
    }
  }

  /** The items in cells that are reached from the ranges of their client. */
  ghost function ScopeOf(clients: map<nat, seq<Cell>>, deleted: map<nat, seq<Range>>): set<Item>
    reads ItemsIn(clients)`id, ItemsIn(clients)`len
  {
    set c, i | c in clients && c in deleted && 0 <= i < |clients[c]| && clients[c][i].ItemCell?
      && InScope(clients[c], deleted[c], i) :: clients[c][i].item
  }

  /** Marks what a set of ranges says was deleted. */
  method MarkInScope(gc: GCCollector, clients: map<nat, seq<Cell>>, deleted: map<nat, seq<Range>>)
    requires gc.Ready({}) && AllIn(clients, gc.items) && Covered(clients) && gc.scope == ScopeOf(clients, deleted)
    modifies gc, gc.items`content, gc.items`countable, gc.h.Keys`start, gc.h.Keys`entries
    ensures gc.Ready({}) && gc.lost == DeadIn(gc.scope)
  {
    hide GCCollector.Ready, Tiles, InScope;
    var todo := deleted.Keys;
    while todo != {}
      invariant gc.Ready({}) && old(gc.lost) <= gc.lost && todo <= deleted.Keys && Covered(clients)
      invariant gc.scope == ScopeOf(clients, deleted)
      invariant forall c, i ::
        c in deleted.Keys - todo && c in clients && 0 <= i < |clients[c]| && InScope(clients[c], deleted[c], i) ==>
          Done(gc, clients[c][i])
    {
      var c :| c in todo;
      if c in clients { MarkRanges(gc, clients[c], deleted[c], c); }
      todo := todo - {c};
    }
    WasCollected(gc);
    ScopeLost(gc, clients, deleted);
  }

  lemma InDocument(clients: map<nat, seq<Cell>>, c: nat)
    requires c in clients
    ensures ItemsOf(clients[c]) <= ItemsIn(clients)
  {
  }

  /** Marks everything that was deleted. */
  method MarkAll(gc: GCCollector, clients: map<nat, seq<Cell>>)
    requires gc.Ready({}) && AllIn(clients, gc.items) && gc.scope == ItemsIn(clients)
    modifies gc, gc.items`content, gc.items`countable, gc.h.Keys`start, gc.h.Keys`entries
    ensures gc.Ready({}) && gc.lost == DeadIn(gc.scope)
  {
    hide GCCollector.Ready;
    var todo := clients.Keys;
    while todo != {}
      invariant gc.Ready({}) && old(gc.lost) <= gc.lost && todo <= clients.Keys
      invariant forall c, i :: c in clients && c !in todo && 0 <= i < |clients[c]| ==> Done(gc, clients[c][i])
    {
      var c :| c in todo;
      InDocument(clients, c);
      MarkClient(gc, clients[c]);
      todo := todo - {c};
    }
    WasCollected(gc);
    AllLost(gc, clients);
  }

  /** No two blocks have the same id. */
  ghost predicate NoClash(clients: map<nat, seq<Cell>>, items: set<Item>)
    reads items`id, ItemsIn(clients)`id, ItemsIn(clients)`len
  {
    forall m, i :: m in items && m.id.client in clients && 0 <= i < |clients[m.id.client]|
      && Covers(clients[m.id.client][i], m.id.clock) && clients[m.id.client][i].ItemCell?
      ==> clients[m.id.client][i].item == m
  }

  /** A cell is that of an item whose id was marked exactly if one of its clocks was marked. */
  lemma HitIsDead(gc: GCCollector, clients: map<nat, seq<Cell>>, c: nat, i: nat)
    requires gc.Marks() && NoClash(clients, gc.items) && AllIn(clients, gc.items) && Covered(clients)
    requires c in clients && i < |clients[c]| && clients[c][i].ItemCell?
    ensures Hit(clients[c][i], Clocks(gc.marked, c)) <==> clients[c][i].item in gc.dead
  {
    hide Tiles, NoClash, GCCollector.Names;
    var clocks, it := Clocks(gc.marked, c), clients[c][i].item;
    CellAt(clients[c], c, i);
    assert it in ItemsIn(clients);
    if Hit(clients[c][i], clocks) {
      var k :| 0 <= k < |clocks| && Covers(clients[c][i], clocks[k]);
      assert gc.Names(c, gc.marked[c][k]);
      NamedItem(gc, clients, c, i, clocks[k]);
    }
    if it in gc.dead {
      var k :| 0 <= k < |clocks| && clocks[k] == it.id.clock;
      assert Covers(clients[c][i], clocks[k]);
    }
  }

  lemma NamedItem(gc: GCCollector, clients: map<nat, seq<Cell>>, c: nat, i: nat, clock: nat)
    requires gc.Names(c, clock) && NoClash(clients, gc.items)
    requires c in clients && i < |clients[c]| && clients[c][i].ItemCell? && Covers(clients[c][i], clock)
    ensures clients[c][i].item in gc.dead
  {
    var m :| m in gc.dead && m in gc.items && m.id == ID(c, clock);
  }

  /** A cell after collection: the same one, or the range of an item that was marked. */
  ghost function Collected(cell: Cell, dead: set<Item>): Cell
    reads (if cell.ItemCell? then {cell.item} else {})`id, (if cell.ItemCell? then {cell.item} else {})`len
  {
    if cell.ItemCell? && cell.item in dead then GcCell(cell.item.id, cell.item.len) else cell
  }

  /** The sweep, after marking. */
  method Sweep(gc: GCCollector, clients: map<nat, seq<Cell>>) returns (r: map<nat, seq<Cell>>)
    requires gc.Ready({}) && Covered(clients) && AllIn(clients, gc.items) && NoClash(clients, gc.items)
    requires forall m :: m in gc.items ==> m.id.client in clients
    ensures r.Keys == clients.Keys && Covered(r) && forall c :: c in clients ==> |r[c]| == |clients[c]|
    ensures forall c, i :: c in clients && 0 <= i < |clients[c]| ==> r[c][i] == Collected(clients[c][i], gc.dead)
  {
    hide GCCollector.Ready, Hit, Tiles, GCCollector.Names, NoClash;
    MarksOf(gc);
    forall c | c in gc.marked ensures c in clients {
      assert gc.Names(c, gc.marked[c][0]);
      NamedClient(gc, c, gc.marked[c][0]);
    }
    r := CollectMarked(gc, clients, gc.items);
    MarksOf(gc);
    SweepCovers(clients, gc.marked, r);
    forall c, i | c in clients && 0 <= i < |clients[c]| ensures r[c][i] == Collected(clients[c][i], gc.dead) {
      assert SweptBy(clients[c], Clocks(gc.marked, c), r[c]);
      if clients[c][i].ItemCell? { HitIsDead(gc, clients, c, i); }
    }
  }

  lemma MarksOf(gc: GCCollector)
    requires gc.Ready({})
    ensures gc.Marks()
  {
  }

  lemma NamedClient(gc: GCCollector, c: nat, clock: nat)
    requires gc.Names(c, clock)
    ensures exists m :: m in gc.items && m.id.client == c
  {
  }

  // ----- a whole collection

  /**
    What was marked: doomed items, each of them in a collection whose holder was collected; and of what was
    nested in what was collected, all that was deleted.
   */
  ghost predicate OnlyNested(nested: map<Item, set<Item>>, items: set<Item>, lost: set<Item>, dead: set<Item>,
      closed: bool)
    reads items`deleted, items`keep, items`parent, (set m | m in items && m.parent != null :: m.parent)`item
  {
    && dead <= items
    && (forall m :: m in dead ==> Doomed(m, closed) && m.parent != null && m.parent.item in lost + dead)
    && (forall it, m :: it in lost + dead && it in nested && m in nested[it] && m in items && m.deleted ==> m in dead)
  }

  /** What the collector knows in the end, about the whole collection. */
  lemma WasCollected(gc: GCCollector)
    requires gc.Ready({})
    ensures Tree(gc.items, gc.h) && OnlyNested(gc.nested, gc.items, gc.lost, gc.dead, gc.closed)
    ensures OnlyDoomedEmptied(gc.items, gc.h, gc.closed, gc.first) && OnlyLost(gc.items, gc.lost, gc.had)
    ensures gc.lost <= gc.scope && gc.lost <= DeadIn(gc.items)
  {
    hide Tree, KeepClosed;
  }

  lemma AllLost(gc: GCCollector, clients: map<nat, seq<Cell>>)
    requires gc.lost <= DeadIn(gc.items) && gc.lost <= gc.scope && gc.scope == ItemsIn(clients)
    requires forall c, i :: c in clients && 0 <= i < |clients[c]| ==> Done(gc, clients[c][i])
    ensures gc.lost == DeadIn(ItemsIn(clients))
  {
    forall it | it in DeadIn(ItemsIn(clients)) ensures it in gc.lost {
      var c, i :| c in clients && 0 <= i < |clients[c]| && clients[c][i] == ItemCell(it);
      assert Done(gc, clients[c][i]);
    }
  }

  lemma ScopeLost(gc: GCCollector, clients: map<nat, seq<Cell>>, deleted: map<nat, seq<Range>>)
    requires gc.lost <= DeadIn(gc.items) && gc.lost <= gc.scope && gc.scope == ScopeOf(clients, deleted)
    requires forall c, i ::
      c in deleted && c in clients && 0 <= i < |clients[c]| && InScope(clients[c], deleted[c], i) ==>
        Done(gc, clients[c][i])
    ensures gc.lost == DeadIn(ScopeOf(clients, deleted))
  {
    hide InScope;
    forall it | it in DeadIn(ScopeOf(clients, deleted)) ensures it in gc.lost {
      var c, i :| c in clients && c in deleted && 0 <= i < |clients[c]| && InScope(clients[c], deleted[c], i)
        && clients[c][i] == ItemCell(it);
      assert Done(gc, clients[c][i]);
    }
  }

  method MarkedAll(clients: map<nat, seq<Cell>>, ghost items: set<Item>, ghost h: map<Branch, nat>, ghost closed: bool)
    returns (gc: GCCollector)
    requires Tree(items, h) && AllIn(clients, items) && (closed ==> KeepClosed(items, h.Keys))
    modifies items`content, items`countable, h.Keys`start, h.Keys`entries
    ensures gc.Ready({}) && gc.items == items && gc.h == h && gc.closed == closed
    ensures gc.scope == ItemsIn(clients) && gc.lost == DeadIn(gc.scope) && gc.nested == old(Nested(items, h.Keys))
    ensures OnlyDoomedEmptied(items, h, closed, old(LinksOf(h))) && OnlyLost(items, gc.lost, old(ContentsOf(items)))
  {
    hide Tree, KeptWell, Covered, Doomed, GCCollector.Ready, Nested, OnlyNested, DeadIn, ItemsIn;
    hide OnlyDoomedEmptied, OnlyLost, LinksOf, ContentsOf;
    gc := new GCCollector(items, h, closed, ItemsIn(clients));
    MarkAll(gc, clients);
    WasCollected(gc);
  }

  method MarkedScope(clients: map<nat, seq<Cell>>, deleted: map<nat, seq<Range>>,
      ghost items: set<Item>, ghost h: map<Branch, nat>, ghost closed: bool)
    returns (gc: GCCollector)
    requires Tree(items, h) && Covered(clients) && AllIn(clients, items) && (closed ==> KeepClosed(items, h.Keys))
    modifies items`content, items`countable, h.Keys`start, h.Keys`entries
    ensures gc.Ready({}) && gc.items == items && gc.h == h && gc.closed == closed
    ensures gc.scope == ScopeOf(clients, deleted) && gc.lost == DeadIn(gc.scope)
    ensures gc.nested == old(Nested(items, h.Keys))
    ensures OnlyDoomedEmptied(items, h, closed, old(LinksOf(h))) && OnlyLost(items, gc.lost, old(ContentsOf(items)))
  {
    hide Tree, KeptWell, Covered, Doomed, GCCollector.Ready, Nested, OnlyNested, DeadIn, ScopeOf, ItemsIn;
    hide OnlyDoomedEmptied, OnlyLost, LinksOf, ContentsOf;
    gc := new GCCollector(items, h, closed, ScopeOf(clients, deleted));
    MarkInScope(gc, clients, deleted);
    WasCollected(gc);
  }

  /**
    Collects everything that was deleted.  All deleted items that are not kept lose their content, and only
    they; what is nested in them, and deleted, becomes ranges, and nothing else; the clocks of every client
    stay covered; and if what holds a kept item is kept, nothing that is kept changes.
   */
  method CollectGarbage(clients: map<nat, seq<Cell>>,
      ghost items: set<Item>, ghost h: map<Branch, nat>, ghost closed: bool)
    returns (r: map<nat, seq<Cell>>, ghost lost: set<Item>, ghost dead: set<Item>)
    requires Tree(items, h) && Covered(clients) && AllIn(clients, items) && NoClash(clients, items)
    requires forall m :: m in items ==> m.id.client in clients
    requires closed ==> KeepClosed(items, h.Keys)
    modifies items`content, items`countable, h.Keys`start, h.Keys`entries
    ensures Tree(items, h) && OnlyDoomedEmptied(items, h, closed, old(LinksOf(h)))
    ensures OnlyLost(items, lost, old(ContentsOf(items)))
    ensures lost == DeadIn(ItemsIn(clients)) && OnlyNested(old(Nested(items, h.Keys)), items, lost, dead, closed)
    ensures r.Keys == clients.Keys && Covered(r) && forall c :: c in clients ==> |r[c]| == |clients[c]|
    ensures forall c, i :: c in clients && 0 <= i < |clients[c]| ==> r[c][i] == Collected(clients[c][i], dead)
  {
    hide Tree, KeptWell, Covered, Doomed, GCCollector.Ready, NoClash, OnlyNested, Nested, DeadIn, ItemsIn, ScopeOf;
    hide OnlyDoomedEmptied, OnlyLost, LinksOf, ContentsOf;
    var gc := MarkedAll(clients, items, h, closed);
    r := Sweep(gc, clients);
    lost, dead := gc.lost, gc.dead;
    WasCollected(gc);
  }

  /**
    Collects what a set of ranges says was deleted, as every transaction does at its end.  It promises what
    `CollectGarbage` promises, but that only items in cells that are reached from the ranges lose their content.
   */
  method CollectScope(clients: map<nat, seq<Cell>>, deleted: map<nat, seq<Range>>,
      ghost items: set<Item>, ghost h: map<Branch, nat>, ghost closed: bool)
    returns (r: map<nat, seq<Cell>>, ghost lost: set<Item>, ghost dead: set<Item>)
    requires Tree(items, h) && Covered(clients) && AllIn(clients, items) && NoClash(clients, items)
    requires forall m :: m in items ==> m.id.client in clients
    requires closed ==> KeepClosed(items, h.Keys)
    modifies items`content, items`countable, h.Keys`start, h.Keys`entries
    ensures Tree(items, h) && OnlyDoomedEmptied(items, h, closed, old(LinksOf(h)))
    ensures OnlyLost(items, lost, old(ContentsOf(items)))
    ensures lost == DeadIn(ScopeOf(clients, deleted))
    ensures OnlyNested(old(Nested(items, h.Keys)), items, lost, dead, closed)
    ensures r.Keys == clients.Keys && Covered(r) && forall c :: c in clients ==> |r[c]| == |clients[c]|
    ensures forall c, i :: c in clients && 0 <= i < |clients[c]| ==> r[c][i] == Collected(clients[c][i], dead)
  {
    hide Tree, KeptWell, Covered, Doomed, GCCollector.Ready, NoClash, OnlyNested, Nested, DeadIn, ItemsIn, ScopeOf;
    hide OnlyDoomedEmptied, OnlyLost, LinksOf, ContentsOf;
    ghost var scope := ScopeOf(clients, deleted);
    ghost var doomed := DeadIn(scope);
    var gc := MarkedScope(clients, deleted, items, h, closed);
    assert scope == ScopeOf(clients, deleted) && doomed == DeadIn(scope);
    r := Sweep(gc, clients);
    assert scope == ScopeOf(clients, deleted) && doomed == DeadIn(scope);
    lost, dead := gc.lost, gc.dead;
    WasCollected(gc);
  }

  /** What was collected is no block of the store any more; all other blocks are in it as they were. */
  method Reclaim(blocks: BlockStore, cells: map<nat, seq<Cell>>, ghost dead: set<Item>)
    requires blocks.Valid() && Covered(cells) && cells.Keys == blocks.clients.Keys
    requires forall c :: c in cells ==> |cells[c]| == |blocks.clients[c]|
    requires forall c, i :: c in cells && 0 <= i < |cells[c]| ==> cells[c][i] == Collected(blocks.clients[c][i], dead)
    modifies blocks`clients, blocks`stored, blocks`known
    ensures blocks.Valid() && blocks.Exact() && Covered(blocks.clients)
    ensures blocks.stored == old(blocks.stored) - dead
    ensures blocks.clients == cells
  {
    hide Disjoint, Covered, ItemsIn;
    ghost var was := blocks.clients;
    blocks.clients := cells;
    blocks.stored := blocks.stored - dead;
    blocks.known := IdsIn(blocks.stored);
    forall it | it in blocks.stored ensures ItemCell(it) in cells[it.id.client] {
      var i :| 0 <= i < |was[it.id.client]| && was[it.id.client][i] == ItemCell(it);
      assert cells[it.id.client][i] == ItemCell(it);
    }
  }

  lemma StoreBefore(blocks: BlockStore)
    requires blocks.Valid() && Covered(blocks.clients)
    ensures AllIn(blocks.clients, blocks.stored) && NoClash(blocks.clients, blocks.stored)
    ensures forall m :: m in blocks.stored ==> m.id.client in blocks.clients
  {
    forall m, i | m in blocks.stored && m.id.client in blocks.clients && 0 <= i < |blocks.clients[m.id.client]|
      && Covers(blocks.clients[m.id.client][i], m.id.clock) && blocks.clients[m.id.client][i].ItemCell?
      ensures blocks.clients[m.id.client][i].item == m
    {
      var o := blocks.clients[m.id.client][i].item;
      CellAt(blocks.clients[m.id.client], m.id.client, i);
      assert o != m ==> Disjoint(o.id, o.len, m.id, m.len);
    }
  }

  /** Each cell is still there, or is the range of an item that was marked. */
  ghost predicate AllCollected(was: map<nat, seq<Cell>>, now: map<nat, seq<Cell>>, dead: set<Item>)
    reads ItemsIn(was)`id, ItemsIn(was)`len
  {
    now.Keys == was.Keys && forall c :: c in was ==>
      |now[c]| == |was[c]| && forall i :: 0 <= i < |was[c]| ==> now[c][i] == Collected(was[c][i], dead)
  }

  /** The collection at the end of a transaction: the store keeps what is left. */
  method CollectStore(blocks: BlockStore, deleted: map<nat, seq<Range>>, ghost h: map<Branch, nat>, ghost closed: bool)
    returns (ghost lost: set<Item>, ghost dead: set<Item>)
    requires blocks.Valid() && Tree(blocks.stored, h) && Covered(blocks.clients)
    requires closed ==> KeepClosed(blocks.stored, h.Keys)
    modifies blocks, blocks.stored`content, blocks.stored`countable, h.Keys`start, h.Keys`entries
    ensures blocks.Valid() && blocks.Exact() && Covered(blocks.clients) && blocks.stored == old(blocks.stored) - dead
    ensures OnlyDoomedEmptied(old(blocks.stored), h, closed, old(LinksOf(h)))
    ensures OnlyLost(old(blocks.stored), lost, old(ContentsOf(blocks.stored)))
    ensures lost == old(DeadIn(ScopeOf(blocks.clients, deleted)))
    ensures OnlyNested(old(Nested(blocks.stored, h.Keys)), old(blocks.stored), lost, dead, closed)
    ensures AllCollected(old(blocks.clients), blocks.clients, dead)
  {
    hide Tree, KeptWell, Covered, Doomed, NoClash, OnlyNested, Nested, DeadIn, ScopeOf, BlockStore.Valid, AllIn;
    hide OnlyDoomedEmptied, OnlyLost, LinksOf, ContentsOf, BlockStore.Exact, Collected;
    ghost var was := blocks.clients;
    StoreBefore(blocks);
    ghost var scope := ScopeOf(was, deleted);
    ghost var doomed := DeadIn(scope);
    var r;
    r, lost, dead := CollectScope(blocks.clients, deleted, blocks.stored, h, closed);
    assert scope == ScopeOf(was, deleted) && doomed == DeadIn(scope);
    Reclaim(blocks, r, dead);
  }
}
