/** Blocks as the program keeps them: objects linked to their neighbours inside a branch. */
module Block {
  import opened Ids
  import opened Seqs
  import opened AnyValue
  import opened Text
  import opened Spans
  import opened BlockIntegration

  /** What a block holds.  The first four kinds can be cut; all the others have length 1. */
  datatype Content =
    | AnyItems(values: seq<Any>)
    | Json(texts: seq<string>)
    | Chars(s: string)
    | Deleted(n: nat)
    | Binary(bytes: seq<Byte>)
    | Embed(value: Any)
    | Format(key: string, attr: Any)
    | SubDoc(guid: string)
    | Type(branch: Branch)
  {
    function Length16(): nat {
      match this
      case AnyItems(v) => |v|
      case Json(v) => |v|
      case Chars(s) => Len16(s)
      case Deleted(n) => n
      case _ => 1
    }

    function Length8(): nat {
      match this
      case AnyItems(v) => |v|
      case Json(v) => |v|
      case Chars(s) => Len8(s)
      case Deleted(n) => n
      case _ => 1
    }

    predicate IsCountable() {
      !Deleted? && !Format?
    }

    predicate CanBeCut() {
      AnyItems? || Json? || Chars? || Deleted?
    }

    /** The first `k` units, and the rest. */
    function Cut(k: nat): (Content, Content)
      requires CanBeCut() && k <= Length16()
    {
      match this
      case AnyItems(v) => (AnyItems(v[..k]), AnyItems(v[k..]))
      case Json(v) => (Json(v[..k]), Json(v[k..]))
      case Chars(s) => (Chars(Split16(s, k).0), Chars(Split16(s, k).1))
      case Deleted(n) => (Deleted(k), Deleted(n - k))
    }

    /** This content followed by another of the same kind, or None. */
    function Squash(other: Content): Option<Content> {
      match (this, other)
      case (AnyItems(v), AnyItems(w)) => Some(AnyItems(v + w))
      case (Json(v), Json(w)) => Some(Json(v + w))
      case (Chars(s), Chars(t)) => Some(Chars(s + t))
      case (Deleted(m), Deleted(n)) => Some(Deleted(m + n))
      case _ => None
    }
  }

  /** The two parts have exactly the lengths asked for, and are of the same kind. */
  lemma CutLengths(c: Content, k: nat)
    requires c.CanBeCut() && k <= c.Length16()
    ensures var (l, r) := c.Cut(k);
      && l.Length16() == k && r.Length16() == c.Length16() - k
      && l.CanBeCut() && r.CanBeCut()
      && l.IsCountable() == r.IsCountable() == c.IsCountable()
  {
    if c.Chars? { Split16Units(c.s, k); }
  }

  /** Cutting this content after `k` units keeps its length in units of this kind. */
  predicate EvenCut(c: Content, k: nat, kind: OffsetKind) {
    kind.Utf16? || !c.Chars? || !CutsPair(c.s, k)
  }

  function LengthIn(c: Content, kind: OffsetKind): nat {
    if kind.Utf16? then c.Length16() else c.Length8()
  }

  /** A cut inside a surrogate pair turns a character of 4 bytes into two of 3 bytes. */
  lemma CutKeepsLength(c: Content, k: nat, kind: OffsetKind)
    requires c.CanBeCut() && k <= c.Length16()
    ensures LengthIn(c.Cut(k).0, kind) + LengthIn(c.Cut(k).1, kind)
         == LengthIn(c, kind) + if EvenCut(c, k, kind) then 0 else 2
  {
    CutLengths(c, k);
    if c.Chars? { Split16Bytes(c.s, k); }
  }

  /** A block of a document. */
  class Item {
    var id: ID
    var len: nat
    var left: Item?
    var right: Item?
    var origin: Option<ID>
    var rightOrigin: Option<ID>
    var content: Content
    var parent: Branch?
    var parentSub: Option<string>
    var redone: Option<ID>
    var deleted: bool
    var countable: bool
    var keep: bool
    var linked: bool

    constructor (id: ID, left: Item?, origin: Option<ID>, right: Item?, rightOrigin: Option<ID>,
        parent: Branch?, parentSub: Option<string>, content: Content)
      ensures this.id == id && this.len == content.Length16() && this.left == left && this.right == right
      ensures this.origin == origin && this.rightOrigin == rightOrigin && this.content == content
      ensures this.parent == parent && this.parentSub == parentSub && this.redone == None
      ensures !deleted && countable == content.IsCountable() && !keep && !linked
    {
      this.id, this.len, this.left, this.right := id, content.Length16(), left, right;
      this.origin, this.rightOrigin, this.content := origin, rightOrigin, content;
      this.parent, this.parentSub, this.redone := parent, parentSub, None;
      deleted, countable, keep, linked := false, content.IsCountable(), false, false;
    }

    /** The block that holds what is left of `b` after its first `k` units. */
    constructor RestOf(b: Item, k: nat)
      requires b.content.CanBeCut() && 0 < k < b.len == b.content.Length16()
      ensures b.IsRest(this, b.ToSpan(), b.content, k)
      ensures left == b && right == b.right && parent == b.parent && parentSub == b.parentSub
    {
      hide Content.Cut, Content.Length16;
      id, len, left, right := IdAfter(b.id, k), b.len - k, b, b.right;
      origin, rightOrigin, content := Some(IdAfter(b.id, k - 1)), b.rightOrigin, b.content.Cut(k).1;
      parent, parentSub := b.parent, b.parentSub;
      redone := if b.redone.Some? then Some(IdAfter(b.redone.value, k)) else None;
      deleted, countable, keep, linked := b.deleted, b.countable, b.keep, b.linked;
    }

    function ToSpan(): Span
      reads this`id, this`len, this`origin, this`rightOrigin
    {
      Span(id, len, origin, rightOrigin)
    }

    predicate Has(id: ID)
      reads this`id, this`len
    {
      id.client == this.id.client && this.id.clock <= id.clock < this.id.clock + len
    }

    ghost function Ids(): iset<ID>
      reads this`id, this`len
    {
      iset id | Has(id)
    }

    function LastId(): ID
      reads this`id, this`len
      requires len > 0
    {
      ID(id.client, id.clock + len - 1)
    }

    /** The length in the units in which indexes are given. */
    function ContentLen(kind: OffsetKind): nat
      reads this`len, this`content
    {
      if kind.Utf16? then len else content.Length8()
    }

    predicate HasLength()
      reads this`len, this`content
    {
      0 < len == content.Length16() && (len == 1 || content.CanBeCut())
    }

    predicate Counts()
      reads this`deleted, this`countable
    {
      !deleted && countable
    }

    /** What this block adds to the length of its branch. */
    function Weight(kind: OffsetKind): nat
      reads this`deleted, this`countable, this`len, this`content
    {
      if Counts() then ContentLen(kind) else 0
    }

    /** `rest` is what is left of a block `was`, with this content, after its first `k` units. */
    ghost predicate IsRest(rest: Item, was: Span, whole: Content, k: nat)
      reads this`redone, this`deleted, this`countable, this`keep, this`linked, this`parent, this`parentSub
      reads rest`id, rest`len, rest`origin, rest`rightOrigin, rest`content
      reads rest`redone, rest`deleted, rest`countable, rest`keep, rest`linked, rest`parent, rest`parentSub
    {
      && 0 < k < was.len && whole.CanBeCut() && k <= whole.Length16()
      && rest.ToSpan() == CutRight(was, k) && rest.content == whole.Cut(k).1
      && rest.redone == (if redone.Some? then Some(IdAfter(redone.value, k)) else None)
      && rest.deleted == deleted && rest.countable == countable
      && rest.keep == keep && rest.linked == linked
      && rest.parent == parent && rest.parentSub == parentSub
    }

    /** This block and `rest` are the parts of a block `was`, with content `whole`, cut after `k` units. */
    ghost predicate Parts(rest: Item, was: Span, whole: Content, k: nat)
      reads this`id, this`len, this`origin, this`rightOrigin, this`content
      reads this`redone, this`deleted, this`countable, this`keep, this`linked, this`parent, this`parentSub
      reads rest`id, rest`len, rest`origin, rest`rightOrigin, rest`content
      reads rest`redone, rest`deleted, rest`countable, rest`keep, rest`linked, rest`parent, rest`parentSub
    {
      && IsRest(rest, was, whole, k)
      && ToSpan() == CutLeft(was, k) && content == whole.Cut(k).0
    }

    /** Cuts this block after `offset` units, and links the new block that holds the rest. */
    method Splice(offset: nat) returns (rest: Item?)
      requires parent != null && parent.Valid() && this in parent.Chain(parentSub)
      requires offset > 0 ==> content.CanBeCut() && offset < len == content.Length16()
      modifies this`len, this`content
      modifies parent.items`left, parent.items`right, parent`start, parent`entries, parent`chains, parent`items
      ensures parent.Valid()
      ensures offset == 0 ==> rest == null && parent.chains == old(parent.chains) && unchanged(this)
      ensures offset > 0 ==>
        && rest != null && fresh(rest) && parent.items == old(parent.items) + {rest}
        && parent.chains == old(parent.chains)[parentSub :=
             Put(old(parent.Chain(parentSub)), Pos(old(parent.Chain(parentSub)), this), rest)]
        && Parts(rest, old(ToSpan()), old(content), offset)
    {
      hide EntriesOk, Linked, Put, Content.Cut, Content.Length16, IsRest, Branch.Valid, Branch.ChainOk;
      if offset == 0 { return null; }
      ghost var i := Pos(parent.Chain(parentSub), this);
      parent.Neighbours(parentSub, i);
      rest := new Item.RestOf(this, offset);
      content := content.Cut(offset).0;
      len := offset;
      parent.Attach(rest, i);
    }

    /** The neighbours of a new block are those that its ids say. */
    ghost predicate Seated(ch: seq<Item>)
      reads this`id, this`len, this`origin, this`rightOrigin, this`left, this`right
      reads ch`id, ch`len, ch`origin, ch`rightOrigin
    {
      Seats(ch, left, right, ToSpan())
    }

    /** Is there anything between the neighbours that the author saw? */
    predicate DetectConflict()
      reads this`left, this`right
      reads (if left == null then {} else {left})`right, (if right == null then {} else {right})`left
    {
      if left == null then right == null || right.left != null
      else left.right != right
    }

    /** What the scan does at block `o`: stop (None), or go on, with `o` as the new candidate or not. */
    method CompareWith(o: Item, beforeOrigin: set<Item>, conflicting: set<Item>, blocks: BlockStore,
        ghost ch: seq<Item>, ghost lo: int, ghost c: int, ghost j: int)
      returns (next: Option<bool>)
      requires blocks.Valid() && (forall k :: 0 <= k < |ch| ==> ch[k] in blocks.stored)
      requires -1 <= lo <= c < j < |ch| && o == ch[j]
      requires Window(beforeOrigin, ch, lo, j) && Window(conflicting, ch, c, j)
      ensures BlockStep(ToSpans(ch), ToSpan(), lo, c, j) ==
        match next case None => None case Some(move) => Some(if move then j else c)
    {
      if origin == o.origin {
        if o.id.client < id.client {
          return Some(true);
        } else if rightOrigin == o.rightOrigin {
          return None;
        }
        return Some(false);
      } else if o.origin != None {
        var originLeft := blocks.GetItem(o.origin.value);
        BlockOfStored(blocks, ch, o.origin.value, originLeft);
        if originLeft == null || originLeft !in beforeOrigin { return None; }
        return Some(originLeft !in conflicting);
      }
      return None;
    }

    /** The first block that may conflict. */
    method FirstConflict(ghost ch: seq<Item>, ghost lo: int) returns (o: Item?)
      requires parent != null && parent.Valid() && ch == parent.Chain(parentSub)
      requires -1 <= lo < |ch| && left == At(ch, lo)
      ensures o == At(ch, lo + 1)
    {
      if left != null {
        assert LinkedAt(ch, lo);
        o := left.right;
      } else if parentSub != None {
        o := parent.FirstOf(parentSub.value);
      } else {
        o := parent.start;
      }
    }

    /** The scan from block `first` on, with the two sets that the program keeps. */
    method ScanFrom(first: Item?, blocks: BlockStore, ghost ch: seq<Item>, ghost lo: int)
      returns (candidate: Item?)
      requires Linked(ch) && blocks.Valid() && (forall k :: 0 <= k < |ch| ==> ch[k] in blocks.stored)
      requires -1 <= lo < |ch| && left == At(ch, lo) && first == At(ch, lo + 1)
      requires forall k :: 0 <= k < |ch| ==> (ch[k] == right <==> rightOrigin == Some(ch[k].id))
      ensures candidate == At(ch, BlockScan(ToSpans(ch), ToSpan(), lo, lo, lo + 1))
    {
      hide BlockStep, ToSpans, Window, BlockStore.Valid;
      var o := first;
      candidate := left;
      var conflicting: set<Item>, beforeOrigin: set<Item> := {}, {};
      ghost var c, j := lo, lo + 1;
      WindowNone(ch, lo);
      while o != null
        invariant lo <= c < j <= |ch| && o == At(ch, j) && candidate == At(ch, c)
        invariant Window(beforeOrigin, ch, lo, j - 1) && Window(conflicting, ch, c, j - 1)
        invariant BlockScan(ToSpans(ch), ToSpan(), lo, c, j) ==
                  BlockScan(ToSpans(ch), ToSpan(), lo, lo, lo + 1)
        decreases |ch| - j
      {
        if right == o { break; }
        WindowNext(beforeOrigin, ch, lo, j);
        WindowNext(conflicting, ch, c, j);
        WindowNone(ch, j);
        beforeOrigin, conflicting := beforeOrigin + {o}, conflicting + {o};
        var next := CompareWith(o, beforeOrigin, conflicting, blocks, ch, lo, c, j);
        if next.None? { break; }
        if next.value {
          candidate, conflicting, c := o, {}, j;
        }
        assert LinkedAt(ch, j);
        o, j := o.right, j + 1;
      }
    }

    /** Moves `left` to the block after which this one goes. */
    method ResolveConflict(blocks: BlockStore)
      requires parent != null && parent.Valid() && this !in parent.items
      requires blocks.Valid() && parent.items <= blocks.stored
      requires Seated(parent.Chain(parentSub))
      modifies this`left
      ensures left == At(parent.Chain(parentSub),
        BlockPlace(ToSpans(parent.Chain(parentSub)), ToSpan()))
    {
      hide BlockScan, ToSpans, BlockStore.Valid, Branch.Valid, Linked;
      ghost var ch := parent.Chain(parentSub);
      parent.LinkedChain(parentSub);
      ghost var lo := LeftBlock(ToSpans(ch), ToSpan());
      var first := FirstConflict(ch, lo);
      var candidate := ScanFrom(first, blocks, ch, lo);
      left := candidate;
    }
  }

  /** A collection: a sequence of blocks from `start`, and for each key a chain that ends at `entries[key]`. */
  class Branch {
    var start: Item?
    var entries: map<string, Item>
    var item: Item?
    var blockLen: nat
    var contentLen: int

    /** The sequence (under None) and the chains of the keys, from left to right. */
    ghost var chains: map<Option<string>, seq<Item>>
    ghost var items: set<Item>

    /** What `contentLen` falls short of, because cutting a character made it longer. */
    ghost var lost: nat

    constructor (item: Item?)
      ensures start == null && entries == map[] && this.item == item && blockLen == contentLen == 0
      ensures chains == map[None := []] && items == {} && lost == 0
    {
      start, entries, this.item, blockLen, contentLen := null, map[], item, 0, 0;
      chains, items, lost := map[None := []], {}, 0;
    }

    ghost function Chain(key: Option<string>): seq<Item>
      reads this`chains
    {
      if key in chains then chains[key] else []
    }

    /** The first block of a key's chain: walks left from the current entry. */
    method FirstOf(key: string) returns (o: Item?)
      requires Valid()
      ensures o == At(Chain(Some(key)), 0)
    {
      if key !in entries { return null; }
      o := entries[key];
      ghost var ch, i := chains[Some(key)], |chains[Some(key)]| - 1;
      while o.left != null
        invariant 0 <= i < |ch| && o == ch[i]
        decreases i
      {
        assert LinkedAt(ch, i);
        o, i := o.left, i - 1;
      }
      assert LinkedAt(ch, i);
    }

    /** The two lengths count what is live in `ch`, but for what is lost. */
    ghost predicate Totals(ch: seq<Item>, kind: OffsetKind)
      reads this`blockLen, this`contentLen, this`lost, ch`deleted, ch`countable, ch`len, ch`content
    {
      blockLen == Sum(Weights(ch, Utf16)) && contentLen + lost == Sum(Weights(ch, kind))
    }

    /** The two lengths count what is live in the sequence, but for what is lost. */
    ghost predicate Counted(kind: OffsetKind)
      reads this`chains, this`blockLen, this`contentLen, this`lost
      reads Chain(None)`deleted, Chain(None)`countable, Chain(None)`len, Chain(None)`content
    {
      Totals(Chain(None), kind)
    }

    lemma StartIsFirst()
      requires Valid()
      ensures start == At(Chain(None), 0)
    {
    }

    ghost predicate Sound(blocks: BlockStore)
      reads this`items, items`len, items`content, blocks`stored
    {
      blocks.Keeps(items)
    }

    ghost predicate ChainOk(key: Option<string>, ch: seq<Item>)
      reads this`items, items`parent, items`parentSub, items`left, items`right
    {
      && (forall i :: 0 <= i < |ch| ==> ch[i] in items)
      && (forall i :: 0 <= i < |ch| ==> ch[i].parent == this && ch[i].parentSub == key)
      && Linked(ch)
    }

    /** The links are sound, and lead through exactly the blocks of the branch. */
    ghost predicate Chained()
      reads this`start, this`chains, this`items
      reads items`parent, items`parentSub, items`left, items`right
    {
      && None in chains
      && (forall key :: key in chains ==> ChainOk(key, chains[key]))
      && (forall it :: it in items ==> it in Chain(it.parentSub))
      && start == At(chains[None], 0)
    }

    /** The links are sound, and each key leads to its current entry. */
    ghost predicate Valid()
      reads this`start, this`entries, this`chains, this`items
      reads items`parent, items`parentSub, items`left, items`right
    {
      Chained() && EntriesOk(entries, chains)
    }

    /** Makes the neighbours that `it` names point to it, or the branch if there is none. */
    method LinkIn(it: Item, ghost ch: seq<Item>, ghost i: int)
      requires Linked(ch) && it !in ch && -1 <= i < |ch|
      requires it.left == At(ch, i) && it.right == At(ch, i + 1)
      modifies ch`left, ch`right, this`start, this`entries
      ensures Linked(Put(ch, i, it))
      ensures start == if i == -1 && it.parentSub.None? then it else old(start)
      ensures entries == if it.parentSub.Some? && i + 1 == |ch|
                         then old(entries)[it.parentSub.value := it] else old(entries)
    {
      if it.left != null {
        it.left.right := it;
      } else if it.parentSub.None? {
        start := it;
      }
      if it.right != null {
        it.right.left := it;
      } else if it.parentSub.Some? {
        entries := entries[it.parentSub.value := it];
      }
      forall k | 0 <= k < |ch| ensures PutAt(ch, i, it, k) {
        assert old(LinkedAt(ch, k));
      }
      PutLinked(ch, i, it);
    }

    /** Puts `it`, which names its neighbours, after position `i` of its chain. */
    method Attach(it: Item, ghost i: int)
      requires Valid() && it !in items && it.parent == this
      requires -1 <= i < |Chain(it.parentSub)|
      requires it.left == At(Chain(it.parentSub), i) && it.right == At(Chain(it.parentSub), i + 1)
      modifies items`left, items`right, this`start, this`entries, this`chains, this`items
      ensures Valid() && items == old(items) + {it}
      ensures chains == old(chains)[it.parentSub := Put(old(Chain(it.parentSub)), i, it)]
    {
      hide EntriesOk, LinkedAt, Linked, Put;
      ghost var key, ch := it.parentSub, Chain(it.parentSub);
      LinkedChain(key);
      LinkIn(it, ch, i);
      forall other | other in chains && other != key ensures ChainOk(other, chains[other]) {
        ghost var u := chains[other];
        assert old(ChainOk(other, u));
        assert forall o :: o in u ==> o.parentSub == other && o !in ch;
      }
      EntriesPut(old(entries), chains, key, ch, i, it);
      PutFirst(ch, i, it);
      Record(it, i);
    }

    lemma Neighbours(key: Option<string>, i: int)
      requires Valid() && 0 <= i < |Chain(key)|
      ensures var ch := Chain(key);
        ch[i] in items && ch[i].left == At(ch, i - 1) && ch[i].right == At(ch, i + 1)
    {
      LinkedChain(key);
      assert LinkedAt(Chain(key), i);
    }

    /** A block is in the sequence if it has no key, and then only once. */
    lemma OneBranchOneChain(it: Item, i: int)
      requires Valid() && it in Chain(it.parentSub)
      requires i == if it in Chain(None) then Pos(Chain(None), it) else -1
      ensures i >= 0 <==> it.parentSub.None?
      ensures forall k :: 0 <= k < |Chain(None)| && k != i ==> Chain(None)[k] != it
    {
      LinkedChain(None);
      LinkedChain(it.parentSub);
    }

    lemma LinkedChain(key: Option<string>)
      requires Valid()
      ensures Linked(Chain(key))
      ensures forall o :: o in Chain(key) ==> o in items && o.parent == this && o.parentSub == key
    {
      assert key in chains ==> ChainOk(key, chains[key]);
    }

    /** The links already lead through `it`: all that is left is to say so. */
    ghost method Record(it: Item, i: int)
      requires None in chains && it.parent == this && -1 <= i < |Chain(it.parentSub)|
      requires forall o :: o in items ==> o in Chain(o.parentSub)
      requires forall o :: o in Chain(it.parentSub) ==>
        o in items && o.parent == this && o.parentSub == it.parentSub
      requires Linked(Put(Chain(it.parentSub), i, it))
      requires forall other :: other in chains && other != it.parentSub ==> ChainOk(other, chains[other])
      requires start == At(if it.parentSub.None? then Put(chains[None], i, it) else chains[None], 0)
      requires EntriesOk(entries, chains[it.parentSub := Put(Chain(it.parentSub), i, it)])
      modifies this`chains, this`items
      ensures Valid() && items == old(items) + {it}
      ensures chains == old(chains)[it.parentSub := Put(old(Chain(it.parentSub)), i, it)]
    {
      hide EntriesOk, LinkedAt, Linked;
      ghost var t := Put(Chain(it.parentSub), i, it);
      PutHas(Chain(it.parentSub), i, it);
      items := items + {it};
      chains := chains[it.parentSub := t];
      assert ChainOk(it.parentSub, t);
    }
  }

  /** What is stored for a range of clocks of one client. */
  datatype Cell = ItemCell(item: Item) | GcCell(id: ID, len: nat) | SkipCell(id: ID, len: nat)

  /** The cells of all clients, with one more of this client. */
  function Appended(clients: map<nat, seq<Cell>>, client: nat, cell: Cell): (r: map<nat, seq<Cell>>)
    ensures client in r && cell in r[client]
  {
    var cells := (if client in clients then clients[client] else []) + [cell];
    assert cells[|cells| - 1] == cell;
    clients[client := cells]
  }

  /** All the blocks of a document, by client. */
  class BlockStore {
    var clients: map<nat, seq<Cell>>
    ghost var stored: set<Item>

    /** The ids of the blocks that are stored. */
    ghost var known: iset<ID>

    constructor ()
      ensures clients == map[] && stored == {} && known == iset{}
    {
      clients, stored, known := map[], {}, iset{};
    }

    /** No id is in two blocks, and each block is under its own client. */
    ghost predicate Valid()
      reads this, stored`id, stored`len
    {
      && (forall c, i :: c in clients && 0 <= i < |clients[c]| && clients[c][i].ItemCell? ==>
            clients[c][i].item in stored)
      && (forall it :: it in stored ==>
            it.len > 0 && it.id.client in clients && ItemCell(it) in clients[it.id.client])
      && (forall a, b {:trigger Disjoint(a.id, a.len, b.id, b.len)} ::
            a in stored && b in stored && a != b ==> Disjoint(a.id, a.len, b.id, b.len))
      && (forall it, id :: it in stored && it.Has(id) ==> id in known)
    }

    /** Every id that is known is that of a block. */
    ghost predicate Exact()
      reads this`stored, this`known, stored`id, stored`len
    {
      forall id :: id in known ==> Stored(id)
    }

    ghost predicate Stored(id: ID)
      reads this`stored, stored`id, stored`len
    {
      exists it :: it in stored && it.Has(id)
    }

    /** The blocks are stored, are not empty, and can be cut if that may be needed. */
    ghost predicate Keeps(items: set<Item>)
      reads this`stored, items`len, items`content
    {
      items <= stored && Whole(items)
    }

    /** Stores a new block with those of its client. */
    method Push(it: Item)
      requires Valid() && it !in stored && it.len > 0
      requires forall o :: o in stored ==> Disjoint(it.id, it.len, o.id, o.len)
      modifies this
      ensures Valid() && stored == old(stored) + {it} && known == old(known) + it.Ids()
      ensures old(Exact()) ==> Exact()
      ensures clients == Appended(old(clients), it.id.client, ItemCell(it))
    {
      var c := it.id.client;
      var cells := (if c in clients then clients[c] else []) + [ItemCell(it)];
      assert cells[|cells| - 1] == ItemCell(it) && ItemCell(it) in cells;
      stored, known := stored + {it}, known + it.Ids();
      clients := clients[c := cells];
      forall id | old(Exact()) && id in known ensures Stored(id) {
        if id in old(known) { assert old(Stored(id)); } else { assert it in stored && it.Has(id); }
      }
    }

    /** Stores a range of clocks whose content is gone. */
    method PushGc(id: ID, len: nat)
      requires Valid()
      modifies this`clients
      ensures Valid() && clients == Appended(old(clients), id.client, GcCell(id, len))
    {
      hide Disjoint;
      var cells := (if id.client in clients then clients[id.client] else []) + [GcCell(id, len)];
      assert cells[|cells| - 1] == GcCell(id, len);
      clients := clients[id.client := cells];
    }

    /** The stored block that contains `id`. */
    function GetItem(id: ID): (r: Item?)
      requires Valid()
      reads this, stored`id, stored`len
      ensures r != null ==> r in stored && r.Has(id)
      ensures r == null ==> forall it :: it in stored ==> !it.Has(id)
    {
      if id.client in clients then ItemWith(clients[id.client], id) else null
    }
  }

  function ItemWith(cells: seq<Cell>, id: ID): (r: Item?)
    reads ItemsOf(cells)`id, ItemsOf(cells)`len
    ensures r != null ==> ItemCell(r) in cells && r.Has(id)
    ensures r == null ==> forall it :: it in ItemsOf(cells) ==> !it.Has(id)
  {
    if cells == [] then null
    else if cells[0].ItemCell? && cells[0].item.Has(id) then cells[0].item
    else ItemWith(cells[1..], id)
  }

  function ItemsOf(cells: seq<Cell>): set<Item> {
    set cell | cell in cells && cell.ItemCell? :: cell.item
  }

  ghost predicate Whole(items: set<Item>)
    reads items`len, items`content
  {
    forall it :: it in items ==> it.HasLength()
  }

  lemma WholeBut(items: set<Item>, it: Item)
    requires Whole(items)
    ensures Whole(items - {it}) && (it in items ==> it.HasLength())
  {
  }

  lemma WholeWith(items: set<Item>, it: Item, rest: Item)
    requires Whole(items - {it}) && it.HasLength() && rest.HasLength()
    ensures Whole(items + {rest})
  {
  }

  /** `s` holds exactly the blocks of `ch` that come after position `from`, up to `to`. */
  ghost predicate Window(s: set<Item>, ch: seq<Item>, from: int, to: int) {
    && (forall k :: 0 <= k < |ch| ==> (ch[k] in s <==> from < k <= to))
    && (forall it :: it in s ==> it in ch)
  }

  lemma WindowNone(ch: seq<Item>, from: int)
    ensures Window({}, ch, from, from)
  {
  }

  lemma WindowNext(s: set<Item>, ch: seq<Item>, from: int, to: int)
    requires Linked(ch) && from < to && 0 <= to < |ch| && Window(s, ch, from, to - 1)
    ensures Window(s + {ch[to]}, ch, from, to)
  {
  }

  lemma NotInBoth(blocks: BlockStore, a: Item, b: Item, id: ID)
    requires blocks.Valid() && a in blocks.stored && b in blocks.stored && a != b
    ensures !(a.Has(id) && b.Has(id))
  {
    assert Disjoint(a.id, a.len, b.id, b.len);
  }

  /** Where a block that was looked up stands in a chain. */
  lemma BlockOfStored(blocks: BlockStore, ch: seq<Item>, id: ID, r: Item?)
    requires blocks.Valid() && (forall k :: 0 <= k < |ch| ==> ch[k] in blocks.stored)
    requires r != null ==> r in blocks.stored && r.Has(id)
    requires r == null ==> forall it :: it in blocks.stored ==> !it.Has(id)
    ensures var o := BlockOf(ToSpans(ch), id);
      if r != null && r in ch then o >= 0 && ch[o] == r else o == -1
  {
    hide ToSpans, Disjoint, BlockStore.Valid;
    var o := BlockOf(ToSpans(ch), id);
    if r != null && r in ch {
      var k :| 0 <= k < |ch| && ch[k] == r;
      assert IsBlockOf(ToSpans(ch), id, k);
    }
    if o >= 0 && r != null && ch[o] != r { NotInBoth(blocks, ch[o], r, id); }
  }

  lemma PutGet(ch: seq<Item>, c: int, x: Item, k: nat)
    requires -1 <= c < |ch| && k <= |ch|
    ensures |Put(ch, c, x)| == |ch| + 1
    ensures Put(ch, c, x)[k] == if k <= c then ch[k] else if k == c + 1 then x else ch[k - 1]
  {
  }

  lemma PutHas(ch: seq<Item>, c: int, x: Item)
    requires -1 <= c < |ch|
    ensures forall o :: o in Put(ch, c, x) <==> o == x || o in ch
  {
    SplitAt(ch, c + 1);
  }

  lemma PutSpans(ch: seq<Item>, c: int, x: Item)
    requires -1 <= c < |ch|
    ensures ToSpans(Put(ch, c, x)) == PutAfter(ToSpans(ch), c, x.ToSpan())
  {
    hide ToSpans, Item.ToSpan, Put;
    var t, bs := Put(ch, c, x), PutAfter(ToSpans(ch), c, x.ToSpan());
    PutGet(ch, c, x, 0);
    forall k | 0 <= k < |t| ensures bs[k] == t[k].ToSpan() {
      PutGet(ch, c, x, k);
    }
    SpansAre(t, bs);
  }

  lemma PutWeights(ch: seq<Item>, c: int, x: Item, kind: OffsetKind)
    requires -1 <= c < |ch|
    ensures Sum(Weights(Put(ch, c, x), kind)) == Sum(Weights(ch, kind)) + x.Weight(kind)
  {
    hide Weights, Sum;
    var w := Weights(ch, kind);
    SumPut(w, c + 1, x.Weight(kind));
    WeightsAre(Put(ch, c, x), kind, w[..c + 1] + [x.Weight(kind)] + w[c + 1..]);
  }

  /** A block was cut, and its rest put after it. */
  lemma CutWeights(ws: seq<nat>, ch: seq<Item>, i: nat, rest: Item, kind: OffsetKind)
    requires i < |ch| == |ws|
    requires forall j :: 0 <= j < |ch| && j != i ==> ch[j].Weight(kind) == ws[j]
    ensures Sum(Weights(Put(ch, i, rest), kind)) == Sum(ws) - ws[i] + ch[i].Weight(kind) + rest.Weight(kind)
  {
    hide Weights, Sum, Item.Weight, Put;
    WeightsAre(ch, kind, ws[i := ch[i].Weight(kind)]);
    SumSet(ws, i, ch[i].Weight(kind));
    PutWeights(ch, i, rest, kind);
  }

  lemma WeightIs(it: Item, kind: OffsetKind)
    requires it.len == it.content.Length16()
    ensures it.Weight(kind) == if it.Counts() then LengthIn(it.content, kind) else 0
  {
  }

  /** What the two parts of a block weigh together. */
  lemma PartsWeigh(it: Item, rest: Item, whole: Content, k: nat, kind: OffsetKind)
    requires whole.CanBeCut() && k <= whole.Length16()
    requires it.content == whole.Cut(k).0 && rest.content == whole.Cut(k).1
    requires it.len == it.content.Length16() && rest.len == rest.content.Length16()
    requires it.Counts() == rest.Counts()
    ensures it.Weight(kind) + rest.Weight(kind) ==
      if it.Counts() then LengthIn(whole, kind) + (if EvenCut(whole, k, kind) then 0 else 2) else 0
  {
    CutKeepsLength(whole, k, kind);
  }

  predicate Disjoint(a: ID, m: nat, b: ID, n: nat) {
    a.client != b.client || a.clock + m <= b.clock || b.clock + n <= a.clock
  }

  function IdAfter(id: ID, k: int): ID
    requires 0 <= id.clock + k
  {
    ID(id.client, id.clock + k)
  }

  /** Where `it` stands in a chain that contains it. */
  ghost function Pos(ch: seq<Item>, it: Item): (i: nat)
    requires it in ch
    ensures i < |ch| && ch[i] == it
  {
    var i :| 0 <= i < |ch| && ch[i] == it;
    i
  }

  ghost function Put(ch: seq<Item>, i: int, it: Item): seq<Item>
    requires -1 <= i < |ch|
  {
    ch[..i + 1] + [it] + ch[i + 1..]
  }

  /** The two blocks stand where the ids that `x` names are. */
  ghost predicate Seats(ch: seq<Item>, left: Item?, right: Item?, x: Span)
    reads ch`id, ch`len, ch`origin, ch`rightOrigin
  {
    && left == At(ch, LeftBlock(ToSpans(ch), x))
    && (right != null ==> right in ch)
    && (forall k :: 0 <= k < |ch| ==> (ch[k] == right <==> x.rightOrigin == Some(ch[k].id)))
  }

  /** The block at position `i`, or null outside of the chain. */
  ghost function At(ch: seq<Item>, i: int): Item? {
    if 0 <= i < |ch| then ch[i] else null
  }

  /** The links of block `k` when `it` has been put after block `i`. */
  ghost predicate PutAt(ch: seq<Item>, i: int, it: Item, k: int)
    requires 0 <= k < |ch|
    reads ch`left, ch`right
  {
    && ch[k].left == (if k == i + 1 then it else At(ch, k - 1))
    && ch[k].right == (if k == i then it else At(ch, k + 1))
  }

  lemma PutFirst(ch: seq<Item>, i: int, it: Item)
    requires -1 <= i < |ch|
    ensures At(Put(ch, i, it), 0) == if i == -1 then it else At(ch, 0)
  {
  }

  lemma PutLinked(ch: seq<Item>, i: int, it: Item)
    requires -1 <= i < |ch| && it !in ch && (forall i, j :: 0 <= i < j < |ch| ==> ch[i] != ch[j])
    requires forall k :: 0 <= k < |ch| ==> PutAt(ch, i, it, k)
    requires it.left == At(ch, i) && it.right == At(ch, i + 1)
    ensures Linked(Put(ch, i, it))
  {
    var t := Put(ch, i, it);
    forall k | 0 <= k < |t| ensures LinkedAt(t, k) {
      if k <= i {
        assert PutAt(ch, i, it, k);
      } else if k > i + 1 {
        assert PutAt(ch, i, it, k - 1);
      }
    }
  }

  /** Each key leads to the last block of its chain. */
  ghost predicate EntriesOk(entries: map<string, Item>, chains: map<Option<string>, seq<Item>>) {
    && (forall key :: key in entries <==> Some(key) in chains)
    && (forall key :: key in entries ==> EndsWith(chains[Some(key)], entries[key]))
  }

  ghost predicate EndsWith(ch: seq<Item>, it: Item) {
    |ch| > 0 && ch[|ch| - 1] == it
  }

  lemma EntriesPut(entries: map<string, Item>, chains: map<Option<string>, seq<Item>>,
      key: Option<string>, ch: seq<Item>, i: int, it: Item)
    requires EntriesOk(entries, chains) && -1 <= i < |ch|
    requires if key in chains then ch == chains[key] else ch == [] && key.Some?
    ensures EntriesOk(if key.Some? && i + 1 == |ch| then entries[key.value := it] else entries,
                      chains[key := Put(ch, i, it)])
  {
    if key.Some? && key in chains { assert EndsWith(ch, entries[key.value]); }
  }

  ghost predicate LinkedAt(ch: seq<Item>, i: int)
    requires 0 <= i < |ch|
    reads ch`left, ch`right
  {
    ch[i].left == At(ch, i - 1) && ch[i].right == At(ch, i + 1)
  }

  /** The blocks are different, and left and right undo each other. */
  ghost predicate Linked(ch: seq<Item>)
    reads ch`left, ch`right
  {
    && (forall i, j :: 0 <= i < j < |ch| ==> ch[i] != ch[j])
    && (forall i :: 0 <= i < |ch| ==> LinkedAt(ch, i))
  }

  lemma Unique(ch: seq<Item>, j: nat)
    requires Linked(ch) && j < |ch|
    ensures forall i :: 0 <= i < |ch| && ch[i] == ch[j] ==> i == j
  {
  }

  /** In the chain of a key, everything but the current entry is deleted. */
  ghost predicate OnlyLastLives(ch: seq<Item>)
    reads ch`deleted
  {
    forall i :: 0 <= i < |ch| - 1 ==> ch[i].deleted
  }

  /** What lives of the chain of a key is one value; what is deleted may have been joined. */
  ghost predicate LiveOnes(ch: seq<Item>)
    reads ch`len, ch`deleted
  {
    forall it :: it in ch ==> it.deleted || it.len == 1
  }

  /** Everything but the current entry is deleted, and that one is deleted or one value. */
  ghost predicate OneLives(ch: seq<Item>)
    reads ch`len, ch`deleted
  {
    OnlyLastLives(ch) && LiveOnes(ch)
  }

  /** The last block of a chain: its last id, and what it holds if it is not deleted. */
  datatype Top = Nothing | Dead(last: ID) | Alive(last: ID, content: Content)

  ghost function TopOf(ch: seq<Item>): Top
    reads ch`id, ch`len, ch`deleted, ch`content
  {
    if ch == [] then Nothing
    else
      var it := ch[|ch| - 1];
      var last := ID(it.id.client, if it.len > 0 then it.id.clock + it.len - 1 else it.id.clock);
      if it.deleted then Dead(last) else Alive(last, it.content)
  }

  /** What holds the branch is deleted. */
  ghost predicate HolderDeleted(b: Branch)
    reads b`item, (if b.item == null then {} else {b.item})`deleted
  {
    b.item != null && b.item.deleted
  }

  /** The ids of what is deleted in a chain. */
  ghost function DeadIds(ch: seq<Item>): iset<ID>
    reads ch`id, ch`len, ch`deleted
  {
    iset id | IsDead(ch, id)
  }

  ghost predicate IsDead(ch: seq<Item>, id: ID)
    reads ch`id, ch`len, ch`deleted
  {
    exists o :: o in ch && o.deleted && o.Has(id)
  }

  ghost function IdsIn(items: set<Item>): iset<ID>
    reads items`id, items`len
  {
    iset id | HasId(items, id)
  }

  ghost predicate HasId(items: set<Item>, id: ID)
    reads items`id, items`len
  {
    exists o :: o in items && o.Has(id)
  }

  ghost function Weights(ch: seq<Item>, kind: OffsetKind): (ws: seq<nat>)
    reads ch`deleted, ch`countable, ch`len, ch`content
    ensures |ws| == |ch| && forall i :: 0 <= i < |ch| ==> ws[i] == ch[i].Weight(kind)
  {
    if ch == [] then [] else [ch[0].Weight(kind)] + Weights(ch[1..], kind)
  }

  lemma WeightsAre(ch: seq<Item>, kind: OffsetKind, ws: seq<nat>)
    requires |ws| == |ch| && forall i :: 0 <= i < |ch| ==> ws[i] == ch[i].Weight(kind)
    ensures Weights(ch, kind) == ws
  {
  }

  ghost function ToSpans(ch: seq<Item>): (bs: seq<Span>)
    reads ch`id, ch`len, ch`origin, ch`rightOrigin
    ensures |bs| == |ch| && forall i :: 0 <= i < |ch| ==> bs[i] == ch[i].ToSpan()
  {
    if ch == [] then [] else [ch[0].ToSpan()] + ToSpans(ch[1..])
  }

  lemma SpansAre(ch: seq<Item>, bs: seq<Span>)
    requires |bs| == |ch| && forall i :: 0 <= i < |ch| ==> bs[i] == ch[i].ToSpan()
    ensures ToSpans(ch) == bs
  {
  }
}
