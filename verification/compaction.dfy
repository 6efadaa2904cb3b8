/** Joining the blocks of a client, from right to left: what the store covers and the branches show stays the same. */
module Compaction {
  import opened Ids
  import opened Block
  import opened Squash
  import opened Gc

  /** A block of `b` is in its place there, and a block of another branch does not lead into `b`. */
  ghost predicate OwnPlace(it: Item, b: Branch)
    reads it, b`items, b`chains
  {
    && Proper(DataOf(it))
    && if it in b.items then it.parent == b && it in b.Chain(it.parentSub)
       else it.right == null || it.right !in b.items
  }

  ghost predicate OwnPlaces(cells: seq<Cell>, b: Branch)
    reads ItemsOf(cells), b`items, b`chains
  {
    forall it :: it in ItemsOf(cells) ==> OwnPlace(it, b)
  }

  ghost predicate Different(cells: seq<Cell>) {
    forall i, j :: 0 <= i < j < |cells| && cells[i].ItemCell? ==> cells[i] != cells[j]
  }

  /** Joins two items of the store, the second of which is in `b`; `key` is any key of `b`. */
  method JoinItems(a: Item, o: Item, ghost b: Branch, ghost key: Option<string>, ghost others: set<Item>,
      ghost apart: set<Item>, ghost rest: set<Item>, ghost first: map<Item, seq<Seen>>) returns (ok: bool)
    requires a !in rest && StillShow(rest, first)
    requires b.Valid() && OwnPlace(a, b) && OwnPlace(o, b) && o in b.items && a != o
    requires apart !! b.items && a !in others && o !in others && forall it :: it in others ==> OwnPlace(it, b)
    modifies a`len, a`content, a`right, a`keep, b.items`left, b`chains, b`items, b`entries
    ensures b.Valid() && ShownAll(b.Chain(key)) == old(ShownAll(b.Chain(key)))
    ensures ok == old(CanSquash(DataOf(a), DataOf(o)) && a.right == o)
    ensures ok ==> DataOf(a) == Squashed(old(DataOf(a)), old(DataOf(o))) && a in b.items && OwnPlace(a, b)
    ensures ok ==> (forall it :: it in others ==> OwnPlace(it, b)) && a.len == old(a.len + o.len)
    ensures (!ok ==> unchanged(a)) && b.items == old(b.items) - (if ok then {o} else {}) && unchanged(apart)
    ensures ok ==> Look(a) == old(Look(a) + Look(o))
    ensures StillShow(rest, first)
  {
    hide Branch.Valid, Branch.Chain, ShownAll, Elements, CanSquash, Squashed, Shown;
    if a.right != o { return false; }
    ghost var da, dt := DataOf(a), DataOf(o);
    ok := SquashSame(a, o, b, key);
    if ok {
      JoinedLength(da, dt);
      SquashShows(da, dt);
    }
  }

  lemma JoinedLength(a: Data, o: Data)
    requires Proper(a) && Proper(o) && CanSquash(a, o)
    ensures Squashed(a, o).span.len == a.span.len + o.span.len
  {
  }

  ghost function Own(cell: Cell): set<Item> {
    if cell.ItemCell? then {cell.item} else {}
  }

  /** What the item in a cell shows. */
  ghost function CellLook(cell: Cell): seq<Seen>
    reads Own(cell)`id, Own(cell)`len, Own(cell)`origin, Own(cell)`rightOrigin
    reads Own(cell)`content, Own(cell)`deleted, Own(cell)`redone, Own(cell)`linked, Own(cell)`keep
  {
    if cell.ItemCell? then Look(cell.item) else []
  }

  /** An item stays the item that it is, and a range a range of its kind. */
  predicate SameKind(now: Cell, was: Cell) {
    if was.ItemCell? then now == was else if was.GcCell? then now.GcCell? else now.SkipCell?
  }

  /** These items show what they showed at first. */
  ghost predicate StillShow(items: set<Item>, first: map<Item, seq<Seen>>)
    reads items`id, items`len, items`origin, items`rightOrigin
    reads items`content, items`deleted, items`redone, items`linked, items`keep
  {
    forall it :: it in items ==> it in first && Look(it) == first[it]
  }

  /** What the items of these cells showed at first. */
  function Showed(cells: seq<Cell>, first: map<Item, seq<Seen>>): seq<Seen> {
    if cells == [] then []
    else (if cells[0].ItemCell? && cells[0].item in first then first[cells[0].item] else []) + Showed(cells[1..], first)
  }

  ghost function LooksOf(items: set<Item>): map<Item, seq<Seen>>
    reads items`id, items`len, items`origin, items`rightOrigin
    reads items`content, items`deleted, items`redone, items`linked, items`keep
  {
    map it | it in items :: Look(it)
  }

  /** Two cells that can be joined: two ranges, or two items that continue each other. */
  ghost predicate Joins(left: Cell, right: Cell)
    reads (if left.ItemCell? then {left.item} else {}), (if right.ItemCell? then {right.item} else {})
  {
    match (left, right)
    case (ItemCell(a), ItemCell(o)) => Proper(DataOf(a)) && CanSquash(DataOf(a), DataOf(o)) && a.right == o
    case (GcCell(_, _), GcCell(_, _)) => true
    case (SkipCell(_, _), SkipCell(_, _)) => true
    case _ => false
  }

  /** What is asked for of the cells that are still to be looked at: `right` and those before it. */
  ghost predicate Ready(cells: seq<Cell>, right: Cell, b: Branch)
    reads ItemsOf(cells), (if right.ItemCell? then {right.item} else {})
    reads b`start, b`entries, b`chains, b`items
    reads b.items`parent, b.items`parentSub, b.items`left, b.items`right
  {
    && b.Valid() && OwnPlaces(cells, b) && Different(cells)
    && (right.ItemCell? ==> right !in cells && right.item in b.items && OwnPlace(right.item, b))
  }

  lemma LastCell(cells: seq<Cell>)
    requires cells != [] && Different(cells) && cells[|cells| - 1].ItemCell?
    ensures cells[|cells| - 1] !in cells[..|cells| - 1]
    ensures ItemsOf(cells[..|cells| - 1]) == ItemsOf(cells) - {cells[|cells| - 1].item}
  {
  }

  /** Joins a cell with the one before it, which is the last of `before`. */
  method JoinCells(ghost before: seq<Cell>, left: Cell, right: Cell, ghost b: Branch, ghost key: Option<string>,
      ghost apart: set<Item>, ghost rest: set<Item>, ghost first: map<Item, seq<Seen>>)
    returns (ok: bool, joined: Cell)
    requires Own(left) !! rest && StillShow(rest, first)
    requires apart !! b.items && Ready(before, right, b) && before != [] && left == before[|before| - 1]
    modifies (if left.ItemCell? then {left.item} else {})`len, (if left.ItemCell? then {left.item} else {})`content
    modifies (if left.ItemCell? then {left.item} else {})`right, (if left.ItemCell? then {left.item} else {})`keep
    modifies b.items`left, b`chains, b`items, b`entries
    ensures b.Valid() && ShownAll(b.Chain(key)) == old(ShownAll(b.Chain(key)))
    ensures ok == old(Joins(left, right)) && (!ok ==> joined == right && !Joins(left, right))
    ensures !ok ==> Start(left) == old(Start(left)) && Length(left) == old(Length(left))
    ensures !ok ==> CellLook(left) == old(CellLook(left)) && CellLook(right) == old(CellLook(right))
    ensures b.items == old(b.items) - (if ok && right.ItemCell? then {right.item} else {}) && unchanged(apart)
    ensures ok ==> SameKind(joined, left) && (left.ItemCell? <==> right.ItemCell?)
    ensures ok ==> CellLook(joined) == old(CellLook(left) + CellLook(right))
    ensures ok ==> Ready(before[..|before| - 1], joined, b)
    ensures ok ==> Start(joined) == old(Start(left)) && Length(joined) == old(Length(left) + Length(right))
    ensures StillShow(rest, first)
  {
    hide Branch.Valid, ShownAll, CanSquash, DataOf, Look;
    ok, joined := false, right;
    match (left, right)
    case (ItemCell(a), ItemCell(o)) =>
      ghost var others := ItemsOf(before[..|before| - 1]);
      LastCell(before);
      ok := JoinItems(a, o, b, key, others, apart, rest, first);
      if ok { joined := left; }
    case (GcCell(id, m), GcCell(_, n)) =>
      ok, joined := true, GcCell(id, m + n);
    case (SkipCell(id, m), SkipCell(_, n)) =>
      ok, joined := true, SkipCell(id, m + n);
    case _ =>
  }

  /** What is left when the cells from `i` to `pos` have become one. */
  ghost function Merged(cells: seq<Cell>, i: nat, pos: nat, joined: Cell): seq<Cell>
    requires i <= pos < |cells|
  {
    cells[..i] + [joined] + cells[pos + 1..]
  }

  /** Where each cell of a client starts, and how long it is. */
  ghost predicate Measures(cells: seq<Cell>, starts: seq<ID>, lens: seq<nat>, from: nat, to: nat)
    requires from <= to <= |cells| == |starts| == |lens|
    reads ItemsOf(cells)`id, ItemsOf(cells)`len
  {
    forall j :: from <= j < to ==> Start(cells[j]) == starts[j] && Length(cells[j]) == lens[j]
  }

  ghost predicate TilesOf(starts: seq<ID>, lens: seq<nat>, client: nat)
    requires |starts| == |lens|
  {
    forall j :: 0 <= j < |starts| ==>
      && starts[j].client == client && lens[j] > 0
      && starts[j].clock == if j == 0 then 0 else starts[j - 1].clock + lens[j - 1]
  }

  lemma Measured(cells: seq<Cell>, client: nat) returns (starts: seq<ID>, lens: seq<nat>)
    requires Tiles(cells, client)
    ensures |cells| == |starts| == |lens| && Measures(cells, starts, lens, 0, |cells|) && TilesOf(starts, lens, client)
  {
    starts := seq(|cells|, j requires 0 <= j < |cells| reads ItemsOf(cells)`id => Start(cells[j]));
    lens := seq(|cells|, j requires 0 <= j < |cells| reads ItemsOf(cells)`len => Length(cells[j]));
    forall j | 0 <= j < |cells|
      ensures starts[j].client == client && lens[j] > 0
      ensures starts[j].clock == if j == 0 then 0 else starts[j - 1].clock + lens[j - 1]
    {
      assert Follows(cells, client, j);
    }
  }

  /** The cells from `i` to `pos` have become `right`, and all others are as they were. */
  ghost predicate Spans(cells: seq<Cell>, i: nat, pos: nat, right: Cell, starts: seq<ID>, lens: seq<nat>)
    requires i <= pos < |cells| == |starts| == |lens|
    reads ItemsOf(cells)`id, ItemsOf(cells)`len
    reads (if right.ItemCell? then {right.item} else {})`id, (if right.ItemCell? then {right.item} else {})`len
  {
    && Measures(cells, starts, lens, 0, i) && Measures(cells, starts, lens, pos + 1, |cells|)
    && Start(right) == starts[i] && starts[i].clock + Length(right) == starts[pos].clock + lens[pos]
    && Length(right) > 0
  }

  lemma StillTiles(cells: seq<Cell>, i: nat, pos: nat, right: Cell, starts: seq<ID>, lens: seq<nat>, client: nat)
    requires i <= pos < |cells| == |starts| == |lens| && TilesOf(starts, lens, client)
    requires Spans(cells, i, pos, right, starts, lens)
    ensures Tiles(Merged(cells, i, pos, right), client)
  {
    var r := Merged(cells, i, pos, right);
    forall j | 0 <= j < |r| ensures Follows(r, client, j) {
      assert r[j] == if j < i then cells[j] else if j == i then right else cells[j + pos - i];
      var k := j - 1;
      assert j > 0 ==> r[k] == if k < i then cells[k] else if k == i then right else cells[k + pos - i];
    }
  }

  /** The items of the cells before `i` and after `pos`. */
  function Others(cells: seq<Cell>, i: nat, pos: nat): set<Item>
    requires i <= pos < |cells|
  {
    ItemsOf(cells[..i]) + ItemsOf(cells[pos + 1..])
  }

  /** The cells from `i` to `pos` have become `right`, which shows what they showed; all others show it still. */
  ghost predicate Became(cells: seq<Cell>, i: nat, pos: nat, right: Cell, first: map<Item, seq<Seen>>)
    requires i <= pos < |cells|
    reads Others(cells, i, pos)`id, Others(cells, i, pos)`len, Others(cells, i, pos)`origin
    reads Others(cells, i, pos)`rightOrigin, Others(cells, i, pos)`content, Others(cells, i, pos)`deleted
    reads Others(cells, i, pos)`redone, Others(cells, i, pos)`linked, Others(cells, i, pos)`keep
    reads Own(right)`id, Own(right)`len, Own(right)`origin, Own(right)`rightOrigin
    reads Own(right)`content, Own(right)`deleted, Own(right)`redone, Own(right)`linked, Own(right)`keep
  {
    && SameKind(right, cells[i]) && CellLook(right) == Showed(cells[i..pos + 1], first)
    && StillShow(Others(cells, i, pos), first)
  }

  lemma OthersNext(cells: seq<Cell>, i: nat, pos: nat)
    requires 0 < i <= pos < |cells| && Different(cells)
    ensures Others(cells, i, pos) == Others(cells, i - 1, pos) + Own(cells[i - 1])
    ensures Own(cells[i - 1]) !! Others(cells, i - 1, pos)
  {
    assert cells[..i] == cells[..i - 1] + [cells[i - 1]];
  }

  lemma OthersIn(cells: seq<Cell>, i: nat, pos: nat)
    requires i <= pos < |cells|
    ensures Others(cells, i, pos) <= ItemsOf(cells) && Own(cells[pos]) <= ItemsOf(cells)
  {
    assert cells[pos] in cells;
    assert forall cell :: cell in cells[..i] || cell in cells[pos + 1..] ==> cell in cells;
  }

  /** Before a round: what the two cells show, and what all others do. */
  lemma BeforeStep(cells: seq<Cell>, i: nat, pos: nat, right: Cell, first: map<Item, seq<Seen>>)
    requires 0 < i <= pos < |cells| && Different(cells) && Became(cells, i, pos, right, first)
    ensures SameKind(right, cells[i]) && Own(cells[i - 1]) !! Others(cells, i - 1, pos)
    ensures cells[i - 1].ItemCell? ==> cells[i - 1].item in first && CellLook(cells[i - 1]) == first[cells[i - 1].item]
    ensures StillShow(Others(cells, i - 1, pos), first)
    ensures CellLook(cells[i - 1]) + CellLook(right) == Showed(cells[i - 1..pos + 1], first)
    ensures CellLook(right) == Showed(cells[i..pos + 1], first)
  {
    hide Look, Others, Showed;
    OthersNext(cells, i, pos);
    ShowedMore(cells, i, pos, first);
  }

  /** After a round. */
  lemma AfterStep(cells: seq<Cell>, i: nat, pos: nat, right: Cell, first: map<Item, seq<Seen>>, ok: bool, joined: Cell)
    requires 0 < i <= pos < |cells| && Different(cells) && StillShow(Others(cells, i - 1, pos), first)
    requires ok ==> SameKind(joined, cells[i - 1]) && CellLook(joined) == Showed(cells[i - 1..pos + 1], first)
    requires !ok ==> SameKind(right, cells[i]) && CellLook(right) == Showed(cells[i..pos + 1], first)
    requires !ok && cells[i - 1].ItemCell? ==>
      cells[i - 1].item in first && CellLook(cells[i - 1]) == first[cells[i - 1].item]
    ensures if ok then Became(cells, i - 1, pos, joined, first) else Became(cells, i, pos, right, first)
  {
    hide Look, Others, Showed;
    OthersNext(cells, i, pos);
  }

  lemma ShowedMore(cells: seq<Cell>, i: nat, pos: nat, first: map<Item, seq<Seen>>)
    requires 0 < i <= pos < |cells| && (cells[i - 1].ItemCell? ==> cells[i - 1].item in first)
    ensures Showed(cells[i - 1..pos + 1], first)
      == (if cells[i - 1].ItemCell? then first[cells[i - 1].item] else []) + Showed(cells[i..pos + 1], first)
  {
    assert cells[i - 1..pos + 1][1..] == cells[i..pos + 1];
  }

  /** One round of `SquashFrom`. */
  method SquashStep(cells: seq<Cell>, i: nat, pos: nat, right: Cell, ghost b: Branch, ghost key: Option<string>,
      ghost starts: seq<ID>, ghost lens: seq<nat>, ghost client: nat, ghost apart: set<Item>,
      ghost first: map<Item, seq<Seen>>) returns (ok: bool, joined: Cell)
    requires apart !! b.items && i <= pos < |cells| && Became(cells, i, pos, right, first)
    requires 0 < i <= pos < |cells| == |starts| == |lens| && Ready(cells[..i], right, b) && Different(cells)
    requires TilesOf(starts, lens, client) && Spans(cells, i, pos, right, starts, lens)
    modifies ItemsOf(cells[..pos])`len, ItemsOf(cells[..pos])`content, ItemsOf(cells[..pos])`right
    modifies ItemsOf(cells[..pos])`keep, b.items`left, b`chains, b`items, b`entries
    ensures b.Valid() && ShownAll(b.Chain(key)) == old(ShownAll(b.Chain(key)))
    ensures unchanged(apart)
    ensures b.items == old(b.items) - if ok && cells[i].ItemCell? then {cells[i].item} else {}
    ensures if ok then Became(cells, i - 1, pos, joined, first) else Became(cells, i, pos, right, first)
    ensures ok ==> Ready(cells[..i - 1], joined, b) && Spans(cells, i - 1, pos, joined, starts, lens)
    ensures !ok ==> joined == right && !Joins(cells[i - 1], right) && Spans(cells, i, pos, right, starts, lens)
  {
    hide Ready, Joins, ShownAll, Start, Length, Branch.Valid, CellLook, Showed, Others, Became, StillShow;
    Take(cells, i, pos);
    BeforeStep(cells, i, pos, right, first);
    if cells[i - 1].ItemCell? { Apart(cells, i, pos); }
    ok, joined := JoinCells(cells[..i], cells[i - 1], right, b, key, apart, Others(cells, i - 1, pos), first);
    AfterStep(cells, i, pos, right, first, ok, joined);
  }

  /** The item at `i - 1` is in no other cell. */
  lemma Apart(cells: seq<Cell>, i: nat, pos: nat)
    requires 0 < i <= pos < |cells| && Different(cells) && cells[i - 1].ItemCell?
    ensures forall j :: 0 <= j < |cells| && j != i - 1 && cells[j].ItemCell? ==> cells[j].item != cells[i - 1].item
  {
  }

  /**
    Joins the cell at `pos` with the one before it, the result with the one before that, and so on, as long as they
    can be joined; `key` is any key of the branch that the items are in, and `apart` any blocks of other branches.
   */
  method SquashFrom(cells: seq<Cell>, pos: nat, ghost client: nat, ghost b: Branch, ghost key: Option<string>,
      ghost apart: set<Item>) returns (r: seq<Cell>, merged: nat)
    requires apart !! b.items
    requires pos < |cells| && Tiles(cells, client) && Different(cells) && Ready(cells[..pos], cells[pos], b)
    modifies ItemsOf(cells[..pos])`len, ItemsOf(cells[..pos])`content, ItemsOf(cells[..pos])`right
    modifies ItemsOf(cells[..pos])`keep, b.items`left, b`chains, b`items, b`entries
    ensures b.Valid() && ShownAll(b.Chain(key)) == old(ShownAll(b.Chain(key))) && unchanged(apart)
    ensures merged <= pos && |r| == |cells| - merged && r == Merged(cells, pos - merged, pos, r[pos - merged])
    ensures Tiles(r, client)
    ensures var i := pos - merged;
      && SameKind(r[i], cells[i]) && b.items == old(b.items) - ItemsOf(cells[i + 1..pos + 1])
      && CellLook(r[i]) == Showed(cells[i..pos + 1], old(LooksOf(ItemsOf(cells))))
      && StillShow(Others(cells, i, pos), old(LooksOf(ItemsOf(cells))))
    ensures Start(r[pos - merged]) == old(Start(cells[pos - merged]))
    ensures Start(r[pos - merged]).clock + Length(r[pos - merged]) == old(Start(cells[pos]).clock + Length(cells[pos]))
    ensures merged == pos || !Joins(r[pos - merged - 1], r[pos - merged])
  {
    hide Ready, Tiles, TilesOf, Joins, ShownAll, Spans, Measures, Branch.Valid, Different, CellLook, Became;
    hide Others, Showed, StillShow, LooksOf, SameKind, Start, Length;
    var i: nat, right := pos, cells[pos];
    ghost var starts, lens := Measured(cells, client);
    SpansFirst(cells, pos, starts, lens, client);
    ValidOf(cells[..pos], right, b);
    ghost var first, had := LooksOf(ItemsOf(cells)), b.items;
    BecameFirst(cells, pos);
    MeasuredAll(cells, starts, lens);
    while i > 0
      invariant i <= pos && Ready(cells[..i], right, b) && Spans(cells, i, pos, right, starts, lens)
      invariant Became(cells, i, pos, right, first) && b.items == had - ItemsOf(cells[i + 1..pos + 1])
      invariant b.Valid() && ShownAll(b.Chain(key)) == old(ShownAll(b.Chain(key)))
      invariant unchanged(apart)
    {
      var ok, joined := SquashStep(cells, i, pos, right, b, key, starts, lens, client, apart, first);
      if !ok { break; }
      assert cells[i..pos + 1] == [cells[i]] + cells[i + 1..pos + 1];
      i, right := i - 1, joined;
    }
    r, merged := cells[..i] + [right] + cells[pos + 1..], pos - i;
    StillTiles(cells, i, pos, right, starts, lens, client);
    AtLast(cells, i, pos, right, first);
    Reach(cells, i, pos, right, starts, lens);
  }

  lemma MeasuredAll(cells: seq<Cell>, starts: seq<ID>, lens: seq<nat>)
    requires |cells| == |starts| == |lens| && Measures(cells, starts, lens, 0, |cells|)
    ensures forall j :: 0 <= j < |cells| ==> Start(cells[j]) == starts[j] && Length(cells[j]) == lens[j]
  {
  }

  lemma Reach(cells: seq<Cell>, i: nat, pos: nat, right: Cell, starts: seq<ID>, lens: seq<nat>)
    requires i <= pos < |cells| == |starts| == |lens| && Spans(cells, i, pos, right, starts, lens)
    ensures Start(right) == starts[i] && starts[i].clock + Length(right) == starts[pos].clock + lens[pos]
  {
  }

  lemma AtLast(cells: seq<Cell>, i: nat, pos: nat, right: Cell, first: map<Item, seq<Seen>>)
    requires i <= pos < |cells| && Became(cells, i, pos, right, first)
    ensures SameKind(right, cells[i]) && CellLook(right) == Showed(cells[i..pos + 1], first)
    ensures StillShow(Others(cells, i, pos), first)
  {
  }

  lemma BecameFirst(cells: seq<Cell>, pos: nat)
    requires pos < |cells|
    ensures Became(cells, pos, pos, cells[pos], LooksOf(ItemsOf(cells)))
  {
    hide Look, Others;
    OthersIn(cells, pos, pos);
    var one, first := cells[pos..pos + 1], LooksOf(ItemsOf(cells));
    assert one == [cells[pos]] && one[1..] == [];
    assert Showed(one, first) == CellLook(cells[pos]) + Showed([], first);
  }

  lemma ValidOf(cells: seq<Cell>, right: Cell, b: Branch)
    requires Ready(cells, right, b)
    ensures b.Valid()
  {
  }

  lemma SpansFirst(cells: seq<Cell>, pos: nat, starts: seq<ID>, lens: seq<nat>, client: nat)
    requires pos < |cells| == |starts| == |lens| && Measures(cells, starts, lens, 0, |cells|)
    requires TilesOf(starts, lens, client)
    ensures Spans(cells, pos, pos, cells[pos], starts, lens)
  {
  }

  lemma Take(cells: seq<Cell>, i: nat, pos: nat)
    requires 0 < i <= pos < |cells|
    ensures cells[i - 1].ItemCell? ==> cells[i - 1].item in ItemsOf(cells[..pos])
    ensures cells[..i][..i - 1] == cells[..i - 1] && cells[..i][i - 1] == cells[i - 1] && |cells[..i]| == i
  {
    assert cells[i - 1] == cells[..pos][i - 1];
  }
}
