/** Rendering remote Python objects within a size budget: formatSequence, the toString members and
    limitOutput in pytypes.cpp. The heap may be cyclic. */
module Repr {
  import opened Basics

  const ELLIPSIS: string := "..."
  const UNRESOLVED_DICT: string := "<UNRESOLVED DICT OBJECT>"

  /** What reading the object at an address yields, as far as rendering is concerned. `Str` is already
      quoted; `Plain` values are printed as they are, `Limited` ones through limitOutput; `Faulting`
      is an object whose contents cannot be read, with the text printed for it. */
  datatype Obj =
    | Str(text: string)
    | Plain(text: string)
    | Limited(text: string)
    | Tuple(items: seq<int>)
    | List(items: seq<int>)
    | Dict(entries: seq<(int, int)>)
    | InvalidDict
    | Faulting(text: string)

  type Heap = int -> Obj

  /** The comparison is made on unsigned 64-bit words. */
  function LimitOutput(text: string, maxSize: int): string {
    if (maxSize - |text|) % TWO_64 > 0 then text else ELLIPSIS
  }

  function Truncated(text: string, maxSize: int): string
    requires maxSize > 5
  {
    if maxSize < |text| then text[..maxSize - 3] + ELLIPSIS else text
  }

  function Join(elements: seq<string>): string {
    if elements == [] then ""
    else if |elements| == 1 then elements[0]
    else elements[0] + ", " + Join(elements[1..])
  }

  // ----- Rendering as a function

  function Render(h: Heap, addr: int, maxSize: int): string
    decreases maxSize, 0, 0
  {
    if maxSize <= 5 then ELLIPSIS
    else
      match h(addr)
      case Str(text) => Truncated(text, maxSize)
      case Plain(text) => text
      case Limited(text) => LimitOutput(text, maxSize)
      case Tuple(items) => "(" + Join(Elements(h, items, maxSize - 2)) + ")"
      case List(items) => "[" + Join(Elements(h, items, maxSize - 2)) + "]"
      case Dict(entries) => "{" + Join(DictElements(h, entries, maxSize - 2)) + "}"
      case InvalidDict => UNRESOLVED_DICT
      case Faulting(text) => text
  }

  /** The elements of a sequence that fit, and an ellipsis for the first one that does not. */
  function Elements(h: Heap, items: seq<int>, remaining: nat): seq<string>
    decreases remaining, 1, |items|
  {
    if items == [] then []
    else
      var item := Render(h, items[0], remaining);
      var left := remaining - (|item| + 2);
      if left < 5 then [ELLIPSIS] else [item] + Elements(h, items[1..], left)
  }

  function DictElements(h: Heap, entries: seq<(int, int)>, remaining: nat): seq<string>
    decreases remaining, 1, |entries|
  {
    if entries == [] then []
    else
      var item := Render(h, entries[0].0, remaining) + ": " + Render(h, entries[0].1, remaining);
      var left := remaining - (|item| + 2);
      if left < 5 then [ELLIPSIS] else [item] + DictElements(h, entries[1..], left)
  }

  // ----- The loops

  method ObjectToString(h: Heap, addr: int, maxSize: int) returns (r: string)
    ensures r == Render(h, addr, maxSize)
    decreases maxSize, 0, 0
  {
    if maxSize <= 5 {
      return ELLIPSIS;
    }
    match h(addr)
    case Str(text) => r := Truncated(text, maxSize);
    case Plain(text) => r := text;
    case Limited(text) => r := LimitOutput(text, maxSize);
    case Tuple(items) =>
      var body := FormatSequence(h, items, maxSize - 2);
      r := "(" + body + ")";
    case List(items) =>
      var body := FormatSequence(h, items, maxSize - 2);
      r := "[" + body + "]";
    case Dict(entries) =>
      var body := FormatDict(h, entries, maxSize - 2);
      r := "{" + body + "}";
    case InvalidDict => r := UNRESOLVED_DICT;
    case Faulting(text) => r := text;
  }

  method FormatSequence(h: Heap, items: seq<int>, maxSize: nat) returns (r: string)
    ensures r == Join(Elements(h, items, maxSize))
    decreases maxSize, 1, 0
  {
    hide Render;
    var elements: seq<string> := [];
    var remaining: nat := maxSize;
    assert items[0..] == items;
    for i := 0 to |items|
      invariant remaining <= maxSize
      invariant elements + Elements(h, items[i..], remaining) == Elements(h, items, maxSize)
    {
      assert items[i..][0] == items[i] && items[i..][1..] == items[i + 1..];
      var item := ObjectToString(h, items[i], remaining);
      var left := remaining - (|item| + 2);
      if left < 5 {
        elements := elements + [ELLIPSIS];
        return Join(elements);
      }
      AppendAssociates(elements, [item], Elements(h, items[i + 1..], left));
      elements := elements + [item];
      remaining := left;
    }
    assert items[|items|..] == [] && elements + [] == elements;
    return Join(elements);
  }

  method FormatDict(h: Heap, entries: seq<(int, int)>, maxSize: nat) returns (r: string)
    ensures r == Join(DictElements(h, entries, maxSize))
    decreases maxSize, 1, 0
  {
    hide Render;
    var elements: seq<string> := [];
    var remaining: nat := maxSize;
    assert entries[0..] == entries;
    for i := 0 to |entries|
      invariant remaining <= maxSize
      invariant elements + DictElements(h, entries[i..], remaining) == DictElements(h, entries, maxSize)
    {
      assert entries[i..][0] == entries[i] && entries[i..][1..] == entries[i + 1..];
      var key := ObjectToString(h, entries[i].0, remaining);
      var value := ObjectToString(h, entries[i].1, remaining);
      var item := key + ": " + value;
      var left := remaining - (|item| + 2);
      if left < 5 {
        elements := elements + [ELLIPSIS];
        return Join(elements);
      }
      AppendAssociates(elements, [item], DictElements(h, entries[i + 1..], left));
      elements := elements + [item];
      remaining := left;
    }
    assert entries[|entries|..] == [] && elements + [] == elements;
    return Join(elements);
  }

  // ----- Length

  predicate Bounded(o: Obj) {
    o.Str? || o.Tuple? || o.List? || o.Dict?
  }

  lemma {:induction false} ElementsLength(h: Heap, items: seq<int>, remaining: nat)
    requires remaining >= 4
    ensures |Join(Elements(h, items, remaining))| <= if remaining == 4 then 3 else remaining - 2
    decreases remaining, |items|
  {
    hide Render;
    if items != [] {
      var item := Render(h, items[0], remaining);
      var left := remaining - (|item| + 2);
      if left >= 5 {
        ElementsLength(h, items[1..], left);
        JoinCons(item, Elements(h, items[1..], left));
      }
    }
  }

  lemma {:induction false} DictElementsLength(h: Heap, entries: seq<(int, int)>, remaining: nat)
    requires remaining >= 4
    ensures |Join(DictElements(h, entries, remaining))| <= if remaining == 4 then 3 else remaining - 2
    decreases remaining, |entries|
  {
    hide Render;
    if entries != [] {
      var item := Render(h, entries[0].0, remaining) + ": " + Render(h, entries[0].1, remaining);
      var left := remaining - (|item| + 2);
      if left >= 5 {
        DictElementsLength(h, entries[1..], left);
        JoinCons(item, DictElements(h, entries[1..], left));
      }
    }
  }

  lemma {:induction false} JoinCons(item: string, rest: seq<string>)
    ensures Join([item] + rest) == if rest == [] then item else item + ", " + Join(rest)
  {
    assert ([item] + rest)[1..] == rest;
  }

  /** However long the scalars inside are and whatever the heap looks like, a string, tuple, list or
      resolved dict rendered with a budget above 5 stays within the budget. */
  lemma {:induction false} RenderedWithinBudget(h: Heap, addr: int, maxSize: int)
    requires maxSize > 5 && Bounded(h(addr))
    ensures |Render(h, addr, maxSize)| <= maxSize
    ensures !h(addr).Str? ==> |Render(h, addr, maxSize)| < maxSize
  {
    match h(addr)
    case Str(_) =>
    case Tuple(items) => ElementsLength(h, items, maxSize - 2);
    case List(items) => ElementsLength(h, items, maxSize - 2);
    case Dict(entries) => DictElementsLength(h, entries, maxSize - 2);
  }

  /** Scalars are not bounded: limitOutput replaces a text only when its length equals the budget. */
  lemma {:induction false} LimitOutputIff(text: string, maxSize: int)
    requires 0 < maxSize < TWO_63 && |text| < TWO_63
    ensures LimitOutput(text, maxSize) == text <==> |text| != maxSize || text == ELLIPSIS
  {
  }

  /** So it keeps a text within the budget exactly when the text fits already. */
  lemma {:induction false} LimitOutputFitsIff(text: string, maxSize: int)
    requires 3 <= maxSize < TWO_63 && |text| < TWO_63
    ensures |LimitOutput(text, maxSize)| <= maxSize <==> |text| <= maxSize
  {
    LimitOutputIff(text, maxSize);
  }

  /** The full text of an object that is neither a string nor a container. */
  function ScalarText(o: Obj): string
    requires !Bounded(o)
  {
    match o
    case Plain(text) => text
    case Limited(text) => text
    case InvalidDict => UNRESOLVED_DICT
    case Faulting(text) => text
  }

  /** Strings in memory are shorter than 2^63 bytes. */
  predicate TextFitsMemory(o: Obj) {
    o.Limited? ==> |o.text| < TWO_63
  }

  /** When a rendering stays within its budget: a budget of five or less must have room for the
      ellipsis; above that strings and containers always do, and everything else exactly when its
      full text does. */
  lemma {:induction false} RenderWithinBudgetIff(h: Heap, addr: int, maxSize: int)
    requires maxSize < TWO_63 && TextFitsMemory(h(addr))
    ensures |Render(h, addr, maxSize)| <= maxSize
       <==> 3 <= maxSize && (maxSize <= 5 || Bounded(h(addr)) || |ScalarText(h(addr))| <= maxSize)
  {
    hide LimitOutput, Truncated;
    if maxSize > 5 && Bounded(h(addr)) {
      RenderedWithinBudget(h, addr, maxSize);
    } else if maxSize > 5 && h(addr).Limited? {
      LimitOutputFitsIff(h(addr).text, maxSize);
    }
  }

  /** A number printed longer than its budget. */
  lemma {:induction false} ScalarsExceedTheBudget()
    ensures var h: Heap := _ => Limited("-1000000");
      |Render(h, 0, 6)| > 6
  {
    LimitOutputIff("-1000000", 6);
  }

  // ----- How much of the heap is visited

  /** A container looks at no more than about half its budget in elements. */
  lemma {:induction false} FewElementsVisited(h: Heap, items: seq<int>, remaining: nat)
    requires remaining >= 4
    ensures |Elements(h, items, remaining)| <= 1 || 2 * |Elements(h, items, remaining)| <= remaining - 3
    decreases remaining, |items|
  {
    hide Render;
    if items != [] {
      var left := remaining - (|Render(h, items[0], remaining)| + 2);
      if left >= 5 {
        FewElementsVisited(h, items[1..], left);
      }
    }
  }

  lemma {:induction false} FewDictElementsVisited(h: Heap, entries: seq<(int, int)>, remaining: nat)
    requires remaining >= 4
    ensures |DictElements(h, entries, remaining)| <= 1 || 4 * |DictElements(h, entries, remaining)| <= remaining - 1
    decreases remaining, |entries|
  {
    hide Render;
    if entries != [] {
      var item := Render(h, entries[0].0, remaining) + ": " + Render(h, entries[0].1, remaining);
      var left := remaining - (|item| + 2);
      if left >= 5 {
        FewDictElementsVisited(h, entries[1..], left);
      }
    }
  }

  function Children(o: Obj): set<int> {
    match o
    case Tuple(items) => set a | a in items
    case List(items) => set a | a in items
    case Dict(entries) => (set e | e in entries :: e.0) + (set e | e in entries :: e.1)
    case _ => {}
  }

  /** The two heaps look alike from `addr` down to `levels` levels. */
  ghost predicate AgreeTo(h: Heap, h': Heap, addr: int, levels: nat)
    decreases levels
  {
    levels == 0 || (h(addr) == h'(addr) && forall a :: a in Children(h(addr)) ==> AgreeTo(h, h', a, levels - 1))
  }

  /** Rendering never looks more than half the budget deep, so on a cyclic heap it goes round any cycle
      only that often: heaps that agree to that depth are rendered alike. */
  lemma {:induction false} RenderIsLocal(h: Heap, h': Heap, addr: int, maxSize: int, levels: nat)
    requires maxSize <= 5 + 2 * levels && AgreeTo(h, h', addr, levels)
    ensures Render(h, addr, maxSize) == Render(h', addr, maxSize)
    decreases maxSize, 0, 0
  {
    if maxSize > 5 {
      AgreeBelow(h, h', addr, levels);
      match h(addr) {
        case Tuple(items) => ElementsAreLocal(h, h', items, maxSize - 2, levels - 1);
        case List(items) => ElementsAreLocal(h, h', items, maxSize - 2, levels - 1);
        case Dict(entries) => DictElementsAreLocal(h, h', entries, maxSize - 2, levels - 1);
        case _ =>
      }
    }
  }

  lemma {:induction false} AgreeBelow(h: Heap, h': Heap, addr: int, levels: nat)
    requires levels > 0 && AgreeTo(h, h', addr, levels)
    ensures h(addr) == h'(addr)
    ensures match h(addr)
      case Tuple(items) => forall a :: a in items ==> AgreeTo(h, h', a, levels - 1)
      case List(items) => forall a :: a in items ==> AgreeTo(h, h', a, levels - 1)
      case Dict(entries) =>
        forall e :: e in entries ==> AgreeTo(h, h', e.0, levels - 1) && AgreeTo(h, h', e.1, levels - 1)
      case _ => true
  {
    match h(addr)
    case Tuple(items) => assert forall a :: a in items ==> a in Children(h(addr));
    case List(items) => assert forall a :: a in items ==> a in Children(h(addr));
    case Dict(entries) =>
      assert forall e :: e in entries ==> e.0 in Children(h(addr)) && e.1 in Children(h(addr));
    case _ =>
  }

  lemma {:induction false} ElementsAreLocal(h: Heap, h': Heap, items: seq<int>, remaining: nat, levels: nat)
    requires remaining <= 5 + 2 * levels && forall a :: a in items ==> AgreeTo(h, h', a, levels)
    ensures Elements(h, items, remaining) == Elements(h', items, remaining)
    decreases remaining, 1, |items|
  {
    hide Render, AgreeTo;
    if items != [] {
      RenderIsLocal(h, h', items[0], remaining, levels);
      var left := remaining - (|Render(h, items[0], remaining)| + 2);
      if left >= 5 {
        ElementsAreLocal(h, h', items[1..], left, levels);
      }
    }
  }

  lemma {:induction false} DictElementsAreLocal(h: Heap, h': Heap, entries: seq<(int, int)>, remaining: nat,
                                                levels: nat)
    requires remaining <= 5 + 2 * levels
    requires forall e :: e in entries ==> AgreeTo(h, h', e.0, levels) && AgreeTo(h, h', e.1, levels)
    ensures DictElements(h, entries, remaining) == DictElements(h', entries, remaining)
    decreases remaining, 1, |entries|
  {
    hide Render, AgreeTo;
    if entries != [] {
      RenderIsLocal(h, h', entries[0].0, remaining, levels);
      RenderIsLocal(h, h', entries[0].1, remaining, levels);
      var item := Render(h, entries[0].0, remaining) + ": " + Render(h, entries[0].1, remaining);
      var left := remaining - (|item| + 2);
      if left >= 5 {
        DictElementsAreLocal(h, h', entries[1..], left, levels);
      }
    }
  }

  // ----- Nothing is cut without need

  /** The complete rendering of an object no more than `levels` levels deep, without any budget. */
  function Complete(h: Heap, addr: int, levels: nat): Option<string>
    decreases levels, 0, 0
  {
    if levels == 0 then None
    else
      match h(addr)
      case Str(text) => Some(text)
      case Plain(text) => Some(text)
      case Limited(text) => Some(text)
      case Tuple(items) => Enclosed("(", CompleteElements(h, items, levels - 1), ")")
      case List(items) => Enclosed("[", CompleteElements(h, items, levels - 1), "]")
      case Dict(entries) => Enclosed("{", CompleteDictElements(h, entries, levels - 1), "}")
      case InvalidDict => Some("<UNRESOLVED DICT OBJECT>")
      case Faulting(text) => Some(text)
  }

  function Enclosed(open: string, elements: Option<seq<string>>, close: string): Option<string> {
    if elements.None? then None else Some(open + Join(elements.value) + close)
  }

  function CompleteElements(h: Heap, items: seq<int>, levels: nat): (r: Option<seq<string>>)
    ensures r.Some? ==> |r.value| == |items|
    decreases levels, 1, |items|
  {
    if items == [] then Some([])
    else
      var first, rest := Complete(h, items[0], levels), CompleteElements(h, items[1..], levels);
      if first.None? || rest.None? then None else Some([first.value] + rest.value)
  }

  function CompleteDictElements(h: Heap, entries: seq<(int, int)>, levels: nat): (r: Option<seq<string>>)
    ensures r.Some? ==> |r.value| == |entries|
    decreases levels, 1, |entries|
  {
    if entries == [] then Some([])
    else
      var key, value := Complete(h, entries[0].0, levels), Complete(h, entries[0].1, levels);
      var rest := CompleteDictElements(h, entries[1..], levels);
      if key.None? || value.None? || rest.None? then None
      else Some([key.value + ": " + value.value] + rest.value)
  }

  /** An object whose complete rendering leaves seven characters of the budget unused is rendered
      completely. */
  lemma {:induction false} CompleteIfItFits(h: Heap, addr: int, maxSize: int, levels: nat)
    requires maxSize < TWO_63
    requires Complete(h, addr, levels).Some? && |Complete(h, addr, levels).value| + 7 <= maxSize
    ensures Render(h, addr, maxSize) == Complete(h, addr, levels).value
    decreases levels, 0, 0
  {
    match h(addr) {
      case Tuple(items) => ElementsIfTheyFit(h, items, maxSize - 2, levels - 1);
      case List(items) => ElementsIfTheyFit(h, items, maxSize - 2, levels - 1);
      case Dict(entries) => DictElementsIfTheyFit(h, entries, maxSize - 2, levels - 1);
      case _ =>
    }
  }

  lemma {:induction false} ElementsIfTheyFit(h: Heap, items: seq<int>, remaining: nat, levels: nat)
    requires remaining < TWO_63
    requires CompleteElements(h, items, levels).Some?
    requires |Join(CompleteElements(h, items, levels).value)| + 7 <= remaining
    ensures Elements(h, items, remaining) == CompleteElements(h, items, levels).value
    decreases levels, 1, |items|
  {
    hide Render, Complete;
    if items != [] {
      var first, rest := Complete(h, items[0], levels).value, CompleteElements(h, items[1..], levels).value;
      JoinCons(first, rest);
      CompleteIfItFits(h, items[0], remaining, levels);
      if rest == [] {
        assert items[1..] == [];
      } else {
        ElementsIfTheyFit(h, items[1..], remaining - (|first| + 2), levels);
      }
    }
  }

  lemma {:induction false} DictElementsIfTheyFit(h: Heap, entries: seq<(int, int)>, remaining: nat, levels: nat)
    requires remaining < TWO_63
    requires CompleteDictElements(h, entries, levels).Some?
    requires |Join(CompleteDictElements(h, entries, levels).value)| + 7 <= remaining
    ensures DictElements(h, entries, remaining) == CompleteDictElements(h, entries, levels).value
    decreases levels, 1, |entries|
  {
    hide Render, Complete;
    if entries != [] {
      var key, value := Complete(h, entries[0].0, levels).value, Complete(h, entries[0].1, levels).value;
      var first, rest := key + ": " + value, CompleteDictElements(h, entries[1..], levels).value;
      JoinCons(first, rest);
      CompleteIfItFits(h, entries[0].0, remaining, levels);
      CompleteIfItFits(h, entries[0].1, remaining, levels);
      if rest == [] {
        assert entries[1..] == [];
      } else {
        DictElementsIfTheyFit(h, entries[1..], remaining - (|first| + 2), levels);
      }
    }
  }
}
