/** Where a rendering is cut: containers and strings of pytypes.cpp, position by position. */
module Truncation {
  import opened Basics
  import opened Repr

  /** How element `k` of a container is rendered with a given budget. */
  type Pieces = (nat, int) -> string

  function ItemPieces(h: Heap, items: seq<int>): Pieces {
    (k: nat, budget: int) => if k < |items| then Render(h, items[k], budget) else ""
  }

  function EntryPieces(h: Heap, entries: seq<(int, int)>): Pieces {
    (k: nat, budget: int) =>
      if k < |entries| then Render(h, entries[k].0, budget) + ": " + Render(h, entries[k].1, budget) else ""
  }

  /** The budget left when the pieces before `k` are rendered, each with what those before it have left, and
      each followed by a separator. */
  function BudgetAt(pieces: Pieces, maxSize: int, k: nat): int {
    if k == 0 then maxSize
    else
      var before := BudgetAt(pieces, maxSize, k - 1);
      before - (|pieces(k - 1, before)| + 2)
  }

  /** Of `n` elements the first `k` leave five characters at least, and the next one does not. */
  ghost predicate CutAt(pieces: Pieces, n: nat, maxSize: int, k: nat) {
    && k <= n
    && (forall j :: 0 < j <= k ==> BudgetAt(pieces, maxSize, j) >= 5)
    && (k < n ==> BudgetAt(pieces, maxSize, k + 1) < 5)
  }

  /** The first `k` of `n` elements, each rendered with what those before it have left, and an ellipsis if
      there are more. */
  ghost predicate IsCut(elements: seq<string>, pieces: Pieces, n: nat, maxSize: int, k: nat) {
    && |elements| == (if k < n then k + 1 else k)
    && (forall j :: 0 <= j < k ==> elements[j] == pieces(j, BudgetAt(pieces, maxSize, j)))
    && (k < n ==> elements[k] == ELLIPSIS)
  }

  /** Without the first element the others are rendered as before, with what it has left. */
  lemma {:induction false} BudgetTail(pieces: Pieces, tail: Pieces, maxSize: int, left: int, k: nat)
    requires left == BudgetAt(pieces, maxSize, 1)
    requires forall j: nat, budget :: tail(j, budget) == pieces(j + 1, budget)
    ensures BudgetAt(pieces, maxSize, k + 1) == BudgetAt(tail, left, k)
  {
    if k > 0 {
      BudgetTail(pieces, tail, maxSize, left, k - 1);
    }
  }

  /** A cut of the tail is a cut of the whole, one later. */
  lemma {:induction false} CutCons(first: string, elements: seq<string>, pieces: Pieces, tail: Pieces, n: nat,
                                   maxSize: int, left: int, k: nat)
    requires left == BudgetAt(pieces, maxSize, 1) >= 5 && first == pieces(0, maxSize)
    requires forall j: nat, budget :: tail(j, budget) == pieces(j + 1, budget)
    requires CutAt(tail, n, left, k) && IsCut(elements, tail, n, left, k)
    ensures CutAt(pieces, n + 1, maxSize, k + 1) && IsCut([first] + elements, pieces, n + 1, maxSize, k + 1)
  {
    hide BudgetAt;
    NothingSpent(pieces, maxSize);
    forall j | 0 <= j <= k + 1
      ensures j > 0 ==> BudgetAt(pieces, maxSize, j) == BudgetAt(tail, left, j - 1)
    {
      if j > 0 {
        BudgetTail(pieces, tail, maxSize, left, j - 1);
      }
    }
    BudgetTail(pieces, tail, maxSize, left, k + 1);
  }

  lemma {:induction false} NothingSpent(pieces: Pieces, maxSize: int)
    ensures BudgetAt(pieces, maxSize, 0) == maxSize
    ensures BudgetAt(pieces, maxSize, 1) == maxSize - (|pieces(0, maxSize)| + 2)
  {
  }

  lemma {:induction false} NothingToCut(pieces: Pieces, maxSize: int)
    ensures CutAt(pieces, 0, maxSize, 0) && IsCut([], pieces, 0, maxSize, 0)
  {
  }

  lemma {:induction false} CutAtOnce(pieces: Pieces, n: nat, maxSize: int)
    requires n > 0 && BudgetAt(pieces, maxSize, 1) < 5
    ensures CutAt(pieces, n, maxSize, 0) && IsCut([ELLIPSIS], pieces, n, maxSize, 0)
  {
    hide BudgetAt;
  }

  lemma {:induction false} ItemsStep(h: Heap, items: seq<int>, maxSize: nat)
    ensures items == [] ==> Elements(h, items, maxSize) == []
    ensures items != [] ==>
      var pieces, tail := ItemPieces(h, items), ItemPieces(h, items[1..]);
      var item := pieces(0, maxSize);
      var left := maxSize - (|item| + 2);
      && Elements(h, items, maxSize) == (if left < 5 then [ELLIPSIS] else [item] + Elements(h, items[1..], left))
      && forall j: nat, budget :: tail(j, budget) == pieces(j + 1, budget)
  {
    hide Render;
  }

  /** A sequence is cut at the first element after which fewer than five characters would remain. */
  lemma {:induction false} ElementsCut(h: Heap, items: seq<int>, maxSize: nat) returns (k: nat)
    ensures CutAt(ItemPieces(h, items), |items|, maxSize, k)
    ensures IsCut(Elements(h, items, maxSize), ItemPieces(h, items), |items|, maxSize, k)
    decreases |items|
  {
    hide BudgetAt, CutAt, IsCut, Elements, ItemPieces;
    var pieces := ItemPieces(h, items);
    ItemsStep(h, items, maxSize);
    NothingSpent(pieces, maxSize);
    k := 0;
    if items == [] {
      NothingToCut(pieces, maxSize);
    } else {
      var item := pieces(0, maxSize);
      var left := maxSize - (|item| + 2);
      if left < 5 {
        CutAtOnce(pieces, |items|, maxSize);
      } else {
        var n := ElementsCut(h, items[1..], left);
        CutCons(item, Elements(h, items[1..], left), pieces, ItemPieces(h, items[1..]), |items| - 1, maxSize, left, n);
        k := n + 1;
      }
    }
  }

  lemma {:induction false} EntriesStep(h: Heap, entries: seq<(int, int)>, maxSize: nat)
    ensures entries == [] ==> DictElements(h, entries, maxSize) == []
    ensures entries != [] ==>
      var pieces, tail := EntryPieces(h, entries), EntryPieces(h, entries[1..]);
      var item := pieces(0, maxSize);
      var left := maxSize - (|item| + 2);
      && DictElements(h, entries, maxSize)
         == (if left < 5 then [ELLIPSIS] else [item] + DictElements(h, entries[1..], left))
      && forall j: nat, budget :: tail(j, budget) == pieces(j + 1, budget)
  {
    hide Render;
  }

  /** So is a dict, whose elements are pairs. */
  lemma {:induction false} DictElementsCut(h: Heap, entries: seq<(int, int)>, maxSize: nat) returns (k: nat)
    ensures CutAt(EntryPieces(h, entries), |entries|, maxSize, k)
    ensures IsCut(DictElements(h, entries, maxSize), EntryPieces(h, entries), |entries|, maxSize, k)
    decreases |entries|
  {
    hide BudgetAt, CutAt, IsCut, DictElements, EntryPieces;
    var pieces := EntryPieces(h, entries);
    EntriesStep(h, entries, maxSize);
    NothingSpent(pieces, maxSize);
    k := 0;
    if entries == [] {
      NothingToCut(pieces, maxSize);
    } else {
      var item := pieces(0, maxSize);
      var left := maxSize - (|item| + 2);
      if left < 5 {
        CutAtOnce(pieces, |entries|, maxSize);
      } else {
        var n := DictElementsCut(h, entries[1..], left);
        var rest := DictElements(h, entries[1..], left);
        CutCons(item, rest, pieces, EntryPieces(h, entries[1..]), |entries| - 1, maxSize, left, n);
        k := n + 1;
      }
    }
  }

  // ----- Whole renderings

  predicate IsContainer(o: Obj) {
    o.Tuple? || o.List? || o.Dict?
  }

  function PiecesOf(h: Heap, o: Obj): Pieces
    requires IsContainer(o)
  {
    match o
    case Tuple(items) => ItemPieces(h, items)
    case List(items) => ItemPieces(h, items)
    case Dict(entries) => EntryPieces(h, entries)
  }

  function Count(o: Obj): nat
    requires IsContainer(o)
  {
    match o
    case Tuple(items) => |items|
    case List(items) => |items|
    case Dict(entries) => |entries|
  }

  function Brackets(o: Obj): (string, string)
    requires IsContainer(o)
  {
    match o
    case Tuple(_) => ("(", ")")
    case List(_) => ("[", "]")
    case Dict(_) => ("{", "}")
  }

  /** A container rendered with a budget above five: its brackets, which take two characters of it, around the
      elements up to the cut and the ellipsis, if it is cut. */
  lemma {:induction false} ContainerRendering(h: Heap, addr: int, maxSize: int)
    returns (k: nat, elements: seq<string>)
    requires maxSize > 5 && IsContainer(h(addr))
    ensures CutAt(PiecesOf(h, h(addr)), Count(h(addr)), maxSize - 2, k)
    ensures IsCut(elements, PiecesOf(h, h(addr)), Count(h(addr)), maxSize - 2, k)
    ensures Render(h, addr, maxSize) == Brackets(h(addr)).0 + Join(elements) + Brackets(h(addr)).1
  {
    hide CutAt, IsCut, ItemPieces, EntryPieces;
    match h(addr)
    case Tuple(items) =>
      k := ElementsCut(h, items, maxSize - 2);
      elements := Elements(h, items, maxSize - 2);
    case List(items) =>
      k := ElementsCut(h, items, maxSize - 2);
      elements := Elements(h, items, maxSize - 2);
    case Dict(entries) =>
      k := DictElementsCut(h, entries, maxSize - 2);
      elements := DictElements(h, entries, maxSize - 2);
  }

  /** There is only one place to cut. */
  lemma {:induction false} CutIsUnique(pieces: Pieces, n: nat, maxSize: int, k: nat, k': nat)
    requires CutAt(pieces, n, maxSize, k) && CutAt(pieces, n, maxSize, k')
    ensures k == k'
  {
    hide BudgetAt;
  }

  /** A string rendered with a budget above five: all of it if it fits, otherwise its head, filling the budget
      together with the ellipsis. */
  lemma {:induction false} StringRendering(h: Heap, addr: int, maxSize: int)
    requires maxSize > 5 && h(addr).Str?
    ensures var text, r := h(addr).text, Render(h, addr, maxSize);
      if |text| <= maxSize then r == text
      else |r| == maxSize && r[..maxSize - 3] == text[..maxSize - 3] && r[maxSize - 3..] == ELLIPSIS
  {
  }

  /** Everything else is rendered in full, but for one case: a text that goes through limitOutput and is exactly
      as long as the budget. */
  lemma {:induction false} ScalarRendering(h: Heap, addr: int, maxSize: int)
    requires 5 < maxSize < TWO_63 && !Bounded(h(addr)) && TextFitsMemory(h(addr))
    ensures Render(h, addr, maxSize)
         == if h(addr).Limited? && |h(addr).text| == maxSize then ELLIPSIS else ScalarText(h(addr))
  {
  }

  /** A list of three hundreds at 0, and a dict of one pair of them at 2. */
  function Hundreds(): Heap {
    addr => if addr == 0 then List([1, 1, 1]) else if addr == 2 then Dict([(1, 1)]) else Limited("100")
  }

  lemma {:induction false} OneHundred(budget: int)
    requires budget == 5 || budget == 8 || budget == 10 || budget == 15
    ensures Render(Hundreds(), 1, budget) == if budget == 5 then ELLIPSIS else "100"
  {
  }

  lemma {:induction false} TwoHundreds()
    ensures Elements(Hundreds(), [1, 1, 1], 15) == ["100", "100", ELLIPSIS]
  {
    hide Render;
    var h, hundred := Hundreds(), "100";
    OneHundred(15);
    OneHundred(10);
    OneHundred(5);
    assert [1, 1, 1][1..] == [1, 1] && [1, 1][1..] == [1];
    assert Elements(h, [1], 5) == [ELLIPSIS];
    assert Elements(h, [1, 1], 10) == [hundred, ELLIPSIS];
  }

  /** With a budget of 17 the list is cut after two of them. */
  lemma {:induction false} CutList()
    ensures Render(Hundreds(), 0, 17) == "[100, 100, ...]"
  {
    hide Render, Elements;
    var hundred := "100";
    TwoHundreds();
    assert [hundred, hundred, ELLIPSIS] == [hundred] + [hundred, ELLIPSIS];
    JoinCons(hundred, [hundred, ELLIPSIS]);
    assert [hundred, ELLIPSIS] == [hundred] + [ELLIPSIS];
    JoinCons(hundred, [ELLIPSIS]);
    ListText(Hundreds(), 0, 17);
  }

  lemma {:induction false} ListText(h: Heap, addr: int, maxSize: int)
    requires maxSize > 5 && h(addr).List?
    ensures Render(h, addr, maxSize) == "[" + Join(Elements(h, h(addr).items, maxSize - 2)) + "]"
  {
  }

  /** The dict is complete. */
  lemma {:induction false} UncutDict()
    ensures Render(Hundreds(), 2, 17) == "{100: 100}"
  {
    hide Render;
    var h := Hundreds();
    OneHundred(15);
    assert [(1, 1)][1..] == [];
    assert DictElements(h, [], 5) == [];
    assert DictElements(h, [(1, 1)], 15) == ["100" + ": " + "100"];
    DictText(h, 2, 17);
  }

  lemma {:induction false} DictText(h: Heap, addr: int, maxSize: int)
    requires maxSize > 5 && h(addr).Dict?
    ensures Render(h, addr, maxSize) == "{" + Join(DictElements(h, h(addr).entries, maxSize - 2)) + "}"
  {
  }
}
