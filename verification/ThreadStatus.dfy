/** The header lines of a thread and the status they show (types.py, traceback_formatter.py). */
module ThreadStatus {
  import opened Basics
  import opened NativeFrames

  /** A thread without its frames. `name` and `interpreterId` may be missing. */
  datatype ThreadInfo = ThreadInfo(
    tid: int,
    name: Option<string>,
    interpreterId: Option<int>,
    holdsTheGil: int,
    isGcCollecting: int)

  const DIGITS: string := "0123456789"
  const GC_SYMBOLS: seq<string> := ["gc_collect", "collect", "collect.constrprop"]

  function Decimal(n: int): string
    decreases if n < 0 then 1 - n else n
  {
    if n < 0 then "-" + Decimal(-n)
    else if n < 10 then [DIGITS[n]]
    else Decimal(n / 10) + [DIGITS[n % 10]]
  }

  function GilStatus(t: ThreadInfo, natives: seq<NativeFrame>): string {
    if t.holdsTheGil > 0 then "Has the GIL"
    else if exists f | f in natives :: f.symbol == "take_gil" then "Waiting for the GIL"
    else if exists f | f in natives :: f.symbol == "drop_gil" then "Dropping the GIL"
    else ""
  }

  /** Native frames, if there are any, decide alone; otherwise the flag does, -1 meaning unknown. */
  function GcStatus(t: ThreadInfo, natives: seq<NativeFrame>): string {
    if natives != [] then
      if exists f, s | f in natives && s in GC_SYMBOLS :: Contains(f.symbol, s) then "Garbage collecting" else ""
    else if t.isGcCollecting == 1 && t.holdsTheGil != 0 then "Garbage collecting"
    else ""
  }

  function Commas(parts: seq<string>): string {
    if parts == [] then "" else if |parts| == 1 then parts[0] else parts[0] + "," + Commas(parts[1..])
  }

  function Remarks(t: ThreadInfo, natives: seq<NativeFrame>): seq<string> {
    var gil, gc := GilStatus(t, natives), GcStatus(t, natives);
    (if t.tid == 0 then ["Thread terminated"] else [])
    + (if gil != "" then [gil] else [])
    + (if gc != "" then [gc] else [])
  }

  function Status(t: ThreadInfo, natives: seq<NativeFrame>): string {
    "[" + Commas(Remarks(t, natives)) + "]"
  }

  function EmptyStack(t: ThreadInfo): string {
    "The frame stack for thread " + Decimal(t.tid) + " is empty"
  }

  /** The status stands here unless it is shown with the interpreter. */
  function ThreadLine(t: ThreadInfo, natives: seq<NativeFrame>, showInterpreter: bool): string {
    "Traceback for thread " + Decimal(t.tid)
    + (if t.name.Some? && t.name.value != "" then " (" + t.name.value + ") " else " ")
    + (if showInterpreter then "" else Status(t, natives) + " ")
    + "(most recent call last):"
  }

  function InterpreterName(id: Option<int>): string {
    match id
    case None => "Not currently attached to any interpreter"
    case Some(id) => if id == 0 then "In the main interpreter" else "In interpreter " + Decimal(id)
  }

  function InterpreterLine(t: ThreadInfo, natives: seq<NativeFrame>): string {
    "  " + InterpreterName(t.interpreterId) + " " + Status(t, natives)
  }

  // ----- What the status says

  lemma {:induction false} ContainsPart(s: string, whole: string, part: string)
    requires Contains(s, whole) && Contains(whole, part)
    ensures Contains(s, part)
  {
    var i :| 0 <= i <= |s| && whole <= s[i..];
    var j :| 0 <= j <= |whole| && part <= whole[j..];
    assert part <= s[i + j..] by {
      assert s[i + j..] == s[i..][j..];
      assert forall k :: 0 <= k < |part| ==> s[i..][j..][k] == whole[j..][k];
    }
  }

  /** The three symbols looked for amount to one: a thread with native frames is collecting garbage
      exactly when some symbol contains "collect", whatever its flag and its hold of the GIL. */
  lemma {:induction false} CollectingIff(t: ThreadInfo, natives: seq<NativeFrame>)
    requires natives != []
    ensures GcStatus(t, natives) != "" <==> exists f | f in natives :: Contains(f.symbol, "collect")
  {
    assert "collect" in GC_SYMBOLS;
    forall f, s | f in natives && s in GC_SYMBOLS && Contains(f.symbol, s)
      ensures Contains(f.symbol, "collect")
    {
      assert "collect" <= "gc_collect"[3..] && "collect" <= "collect"[0..] && "collect" <= "collect.constrprop"[0..];
      assert Contains(s, "collect");
      ContainsPart(f.symbol, s, "collect");
    }
  }

  predicate Calls(natives: seq<NativeFrame>, symbol: string) {
    exists f | f in natives :: f.symbol == symbol
  }

  /** Remark by remark, when it is made: about the GIL at most one, and holding it goes first; about garbage
      collection on the word of the native frames if there are any, and of the flag otherwise. */
  lemma {:induction false} RemarksIff(t: ThreadInfo, natives: seq<NativeFrame>)
    ensures var r := Remarks(t, natives);
      && ("Thread terminated" in r <==> t.tid == 0)
      && ("Has the GIL" in r <==> t.holdsTheGil > 0)
      && ("Waiting for the GIL" in r <==> t.holdsTheGil <= 0 && Calls(natives, "take_gil"))
      && ("Dropping the GIL" in r <==>
            t.holdsTheGil <= 0 && !Calls(natives, "take_gil") && Calls(natives, "drop_gil"))
      && ("Garbage collecting" in r <==>
            if natives != [] then exists f | f in natives :: Contains(f.symbol, "collect")
            else t.isGcCollecting == 1 && t.holdsTheGil != 0)
      && |r| <= 3
  {
    hide Contains, Calls, GilStatus, GcStatus;
    FirstLetters();
    GilSays(t, natives);
    GcSays(t, natives);
  }

  lemma {:induction false} GilSays(t: ThreadInfo, natives: seq<NativeFrame>)
    ensures GilStatus(t, natives) ==
      if t.holdsTheGil > 0 then "Has the GIL"
      else if Calls(natives, "take_gil") then "Waiting for the GIL"
      else if Calls(natives, "drop_gil") then "Dropping the GIL"
      else ""
  {
  }

  lemma {:induction false} GcSays(t: ThreadInfo, natives: seq<NativeFrame>)
    ensures GcStatus(t, natives) == "" || GcStatus(t, natives) == "Garbage collecting"
    ensures GcStatus(t, natives) != "" <==>
      if natives != [] then exists f | f in natives :: Contains(f.symbol, "collect")
      else t.isGcCollecting == 1 && t.holdsTheGil != 0
  {
    hide Contains;
    if natives != [] {
      CollectingIff(t, natives);
    }
  }

  lemma {:induction false} FirstLetters()
    ensures "Thread terminated"[0] == 'T' && "Has the GIL"[0] == 'H' && "Waiting for the GIL"[0] == 'W'
    ensures "Dropping the GIL"[0] == 'D' && "Garbage collecting"[0] == 'G'
  {
  }

  function Number(s: string): int {
    if s == "" then 0
    else if s[0] == '-' then -Number(s[1..])
    else 10 * Number(s[..|s| - 1]) + (s[|s| - 1] as int - '0' as int)
  }

  lemma {:induction false} DecimalDigits(n: nat)
    ensures Decimal(n) != "" && Decimal(n)[0] != '-' && Number(Decimal(n)) == n
  {
    if n < 10 {
      assert DIGITS[n] as int == n + '0' as int;
      assert Decimal(n)[..0] == "";
    } else {
      DecimalDigits(n / 10);
      assert DIGITS[n % 10] as int == n % 10 + '0' as int;
      assert Decimal(n)[..|Decimal(n)| - 1] == Decimal(n / 10);
    }
  }

  /** Thread and interpreter ids are written without loss. */
  lemma {:induction false} DecimalInverts(n: int)
    ensures Number(Decimal(n)) == n
  {
    if n < 0 {
      DecimalDigits(-n);
      assert Decimal(n)[1..] == Decimal(-n);
    } else {
      DecimalDigits(n);
    }
  }

  // ----- What the header lines say

  /** Joining two lists of remarks puts one comma between them. */
  lemma {:induction false} CommasSplit(xs: seq<string>, ys: seq<string>)
    requires xs != [] && ys != []
    ensures Commas(xs + ys) == Commas(xs) + "," + Commas(ys)
  {
    assert (xs + ys)[1..] == xs[1..] + ys;
    if |xs| > 1 {
      CommasSplit(xs[1..], ys);
      AppendAssociates(xs[0] + ",", Commas(xs[1..]), "," + Commas(ys));
      AppendAssociates(xs[0] + "," + Commas(xs[1..]), ",", Commas(ys));
      AppendAssociates(Commas(xs[1..]), ",", Commas(ys));
    }
  }

  lemma {:induction false} NamesDiffer(a: Option<int>, b: Option<int>)
    requires a != b
    ensures InterpreterName(a) != InterpreterName(b)
  {
    hide Decimal, Number;
    assert InterpreterName(None)[0] == 'N';
    assert InterpreterName(Some(0))[3] == 't';
    if a.Some? {
      NumberedName(a.value);
      DecimalInverts(a.value);
    }
    if b.Some? {
      NumberedName(b.value);
      DecimalInverts(b.value);
    }
  }

  lemma {:induction false} NumberedName(n: int)
    ensures InterpreterName(Some(n))[0] == 'I'
    ensures n != 0 ==>
      && InterpreterName(Some(n))[3] == 'i' && |InterpreterName(Some(n))| >= 15
      && InterpreterName(Some(n))[15..] == Decimal(n)
  {
    hide Decimal;
  }

  /** Threads of different interpreters are told apart by their lines, whatever else is the same. */
  lemma {:induction false} InterpretersDiffer(t: ThreadInfo, id: Option<int>, natives: seq<NativeFrame>)
    requires id != t.interpreterId
    ensures InterpreterLine(t, natives) != InterpreterLine(t.(interpreterId := id), natives)
  {
    hide InterpreterName, Status, Decimal;
    NamesDiffer(t.interpreterId, id);
    StatusOfAnyInterpreter(t, id, natives);
    MiddlesDiffer("  ", InterpreterName(t.interpreterId), InterpreterName(id), " " + Status(t, natives));
  }

  lemma {:induction false} StatusOfAnyInterpreter(t: ThreadInfo, id: Option<int>, natives: seq<NativeFrame>)
    ensures Status(t.(interpreterId := id), natives) == Status(t, natives)
    ensures InterpreterLine(t, natives) == "  " + InterpreterName(t.interpreterId) + (" " + Status(t, natives))
    ensures InterpreterLine(t.(interpreterId := id), natives) == "  " + InterpreterName(id) + (" " + Status(t, natives))
  {
    hide InterpreterName;
  }

  lemma {:induction false} MiddleIs(before: string, a: string, after: string)
    ensures var s := before + a + after;
      |s| == |before| + |a| + |after| && s[|before|..|before| + |a|] == a
  {
  }

  lemma {:induction false} MiddlesDiffer(before: string, a: string, b: string, after: string)
    requires a != b
    ensures before + a + after != before + b + after
  {
    MiddleIs(before, a, after);
    MiddleIs(before, b, after);
  }

  lemma {:induction false} NumbersDiffer(m: int, n: int)
    requires m != n
    ensures Decimal(m) != Decimal(n)
  {
    hide Decimal, Number;
    DecimalInverts(m);
    DecimalInverts(n);
  }

  /** What follows the id in the line of a thread. */
  function AfterTid(t: ThreadInfo, natives: seq<NativeFrame>, showInterpreter: bool): string {
    (if t.name.Some? && t.name.value != "" then " (" + t.name.value + ") " else " ")
    + ((if showInterpreter then "" else Status(t, natives) + " ") + "(most recent call last):")
  }

  lemma {:induction false} ThreadLineIs(t: ThreadInfo, natives: seq<NativeFrame>, showInterpreter: bool)
    ensures ThreadLine(t, natives, showInterpreter)
         == "Traceback for thread " + Decimal(t.tid) + AfterTid(t, natives, showInterpreter)
  {
    hide Decimal, Status;
    Associates("Traceback for thread " + Decimal(t.tid),
               if t.name.Some? && t.name.value != "" then " (" + t.name.value + ") " else " ",
               if showInterpreter then "" else Status(t, natives) + " ", "(most recent call last):");
  }

  lemma {:induction false} Associates(a: string, b: string, c: string, d: string)
    ensures a + b + c + d == a + (b + (c + d))
  {
  }

  lemma {:induction false} AfterLivingTid(t: ThreadInfo, tid: int, natives: seq<NativeFrame>, showInterpreter: bool)
    requires t.tid != 0 && tid != 0
    ensures AfterTid(t.(tid := tid), natives, showInterpreter) == AfterTid(t, natives, showInterpreter)
  {
  }

  lemma {:induction false} Regrouped(a: string, b: string, c: string, d: string, e: string)
    ensures a + (b + (c + d + e)) == (a + b) + c + (d + e)
  {
  }

  /** The status of a thread stands in exactly one of its lines: the one about its interpreter if it has one,
      and its own otherwise. */
  lemma {:induction false} StatusIsSaidOnce(t: ThreadInfo, natives: seq<NativeFrame>)
    ensures ThreadLine(t, natives, true) == ThreadLine(t, [], true)
    ensures exists start :: InterpreterLine(t, natives) == start + Status(t, natives)
    ensures exists start, end :: ThreadLine(t, natives, false) == start + Status(t, natives) + end
  {
    hide Status, Decimal, ThreadLine, AfterTid, InterpreterName;
    ThreadLineIs(t, natives, true);
    ThreadLineIs(t, [], true);
    NoStatusAfterTid(t, natives);
    StatusAfterTid(t, natives);
    assert InterpreterLine(t, natives) == ("  " + InterpreterName(t.interpreterId) + " ") + Status(t, natives);
  }

  lemma {:induction false} NoStatusAfterTid(t: ThreadInfo, natives: seq<NativeFrame>)
    ensures AfterTid(t, natives, true) == AfterTid(t, [], true)
  {
  }

  lemma {:induction false} StatusAfterTid(t: ThreadInfo, natives: seq<NativeFrame>)
    ensures exists start, end :: ThreadLine(t, natives, false) == start + Status(t, natives) + end
  {
    hide Status, Decimal, ThreadLine;
    ThreadLineIs(t, natives, false);
    var name := if t.name.Some? && t.name.value != "" then " (" + t.name.value + ") " else " ";
    Regrouped("Traceback for thread " + Decimal(t.tid), name, Status(t, natives), " ", "(most recent call last):");
  }

  /** Threads of different ids are told apart by what is said of them, whatever else is the same. */
  lemma {:induction false} ThreadsDiffer(t: ThreadInfo, tid: int, natives: seq<NativeFrame>, showInterpreter: bool)
    requires tid != t.tid && tid != 0 && t.tid != 0
    ensures EmptyStack(t) != EmptyStack(t.(tid := tid))
    ensures ThreadLine(t, natives, showInterpreter) != ThreadLine(t.(tid := tid), natives, showInterpreter)
  {
    hide Decimal, ThreadLine, AfterTid;
    NumbersDiffer(t.tid, tid);
    MiddlesDiffer("The frame stack for thread ", Decimal(t.tid), Decimal(tid), " is empty");
    ThreadLineIs(t, natives, showInterpreter);
    ThreadLineIs(t.(tid := tid), natives, showInterpreter);
    AfterLivingTid(t, tid, natives, showInterpreter);
    MiddlesDiffer("Traceback for thread ", Decimal(t.tid), Decimal(tid), AfterTid(t, natives, showInterpreter));
  }

  /** So are threads of different names; a thread without one has the empty name. */
  lemma {:induction false} NamesAreSaid(t: ThreadInfo, name: string, natives: seq<NativeFrame>, showInterpreter: bool)
    requires t.name.Some? && t.name.value != name && t.name.value != ""
    ensures ThreadLine(t, natives, showInterpreter) != ThreadLine(t.(name := Some(name)), natives, showInterpreter)
  {
    hide Decimal, ThreadLine, Status;
    ThreadLineIs(t, natives, showInterpreter);
    ThreadLineIs(t.(name := Some(name)), natives, showInterpreter);
    StatusOfAnyName(t, name, natives);
    NamedParts(t.name.value, name);
    var before, after := "Traceback for thread " + Decimal(t.tid),
                         (if showInterpreter then "" else Status(t, natives) + " ") + "(most recent call last):";
    var named, other := " (" + t.name.value + ") ", if name != "" then " (" + name + ") " else " ";
    AppendAssociates(before, named, after);
    AppendAssociates(before, other, after);
    MiddlesDiffer(before, named, other, after);
  }

  lemma {:induction false} StatusOfAnyName(t: ThreadInfo, name: string, natives: seq<NativeFrame>)
    ensures Status(t.(name := Some(name)), natives) == Status(t, natives)
  {
  }

  lemma {:induction false} NamedParts(a: string, b: string)
    requires a != b && a != ""
    ensures " (" + a + ") " != if b != "" then " (" + b + ") " else " "
  {
    MiddlesDiffer(" (", a, b, ") ");
  }
}
