/** How the native symbols that matter are read: what the classification of native_frame.cpp and types.py
    does to whole families of symbols, and to some in particular. */
module Symbols {
  import opened Basics
  import opened NativeFrames

  /** A symbol that lacks some character of a text does not contain the text. */
  lemma {:induction false} LacksChar(s: string, part: string, c: char)
    requires c in part && c !in s
    ensures !Contains(s, part)
  {
    var j :| 0 <= j < |part| && part[j] == c;
    forall i | 0 <= i <= |s| ensures !(part <= s[i..]) {
      assert forall k :: 0 <= k < |s[i..]| ==> s[i..][k] in s;
    }
  }

  lemma {:induction false} ContainsItself(before: string, part: string, after: string)
    ensures Contains(before + part + after, part)
  {
    var s := before + part + after;
    assert s[|before|..] == part + after;
    assert part <= s[|before|..];
  }

  /** The default evaluation function, under any name a compiler derives from it, is evaluation from 3.6 on. */
  lemma {:induction false} DefaultEvaluates(f: NativeFrame, v: Version, before: string, after: string)
    requires f.symbol == before + "_PyEval_EvalFrameDefault" + after && v.AtLeast(Version(3, 6))
    ensures KindOf(f, Some(v)) == Eval
  {
    ContainsItself(before, "_PyEval_EvalFrameDefault", after);
  }

  /** And PyEval_EvalFrameEx before. */
  lemma {:induction false} ExEvaluates(f: NativeFrame, v: Version, before: string, after: string)
    requires f.symbol == before + "PyEval_EvalFrameEx" + after && !v.AtLeast(Version(3, 6))
    ensures KindOf(f, Some(v)) == Eval
  {
    ContainsItself(before, "PyEval_EvalFrameEx", after);
  }

  /** Handlers of the tail-calling interpreter evaluate: all of them from 3.15 on, the LLVM clones from 3.6
      on; none of them is ever shown. */
  lemma {:induction false} TailCallsEvaluate(f: NativeFrame, v: Version, name: string)
    requires f.symbol == "_TAIL_CALL_" + name
    ensures v.AtLeast(Version(3, 15)) ==> KindOf(f, Some(v)) == Eval
    ensures v.AtLeast(Version(3, 6)) && Contains(f.symbol, ".llvm.") ==> KindOf(f, Some(v)) == Eval
    ensures KindOf(f, Some(v)) != Other && KindOf(f, None) == Ignore
  {
    assert "_TAIL_CALL_" <= f.symbol;
  }

  /** The interpreter's own functions are never shown, whatever the version, nor are those on the list. */
  lemma {:induction false} MachineryIsHidden(f: NativeFrame, version: Option<Version>)
    requires "_Py" <= f.symbol || "PyEval" <= f.symbol || exists p :: p in SYMBOL_IGNORELIST && p <= f.symbol
    ensures KindOf(f, version) != Other
  {
    if p :| p in SYMBOL_IGNORELIST && p <= f.symbol {
      assert StartsWith(f.symbol, p);
    }
  }

  // ----- Some symbols

  /** The names of the evaluation functions, with the suffix GCC gives their cold parts. */
  lemma {:induction false} EvaluationFunctions(f: NativeFrame, v: Version)
    ensures f.symbol == "_PyEval_EvalFrameDefault.cold.32" ==>
      KindOf(f, Some(v)) == if v.AtLeast(Version(3, 6)) then Eval else Ignore
    ensures f.symbol == "PyEval_EvalFrameEx.cold.32" ==>
      KindOf(f, Some(v)) == if v.AtLeast(Version(3, 6)) then Ignore else Eval
  {
    if f.symbol == "_PyEval_EvalFrameDefault.cold.32" {
      DefaultIsNotEx(f.symbol);
      DefaultEval(f, v);
    }
    if f.symbol == "PyEval_EvalFrameEx.cold.32" {
      ExIsNotDefault(f.symbol);
      ExEval(f, v);
    }
  }

  lemma {:induction false} DefaultEval(f: NativeFrame, v: Version)
    requires f.symbol == "_PyEval_EvalFrameDefault.cold.32" && !Contains(f.symbol, "PyEval_EvalFrameEx")
    ensures KindOf(f, Some(v)) == if v.AtLeast(Version(3, 6)) then Eval else Ignore
  {
    hide Contains;
    assert f.symbol == "" + "_PyEval_EvalFrameDefault" + ".cold.32";
    if v.AtLeast(Version(3, 6)) {
      DefaultEvaluates(f, v, "", ".cold.32");
    } else {
      assert "_PyEval" <= f.symbol;
    }
  }

  lemma {:induction false} ExEval(f: NativeFrame, v: Version)
    requires f.symbol == "PyEval_EvalFrameEx.cold.32" && !Contains(f.symbol, "_PyEval_EvalFrameDefault")
    ensures KindOf(f, Some(v)) == if v.AtLeast(Version(3, 6)) then Ignore else Eval
  {
    hide Contains;
    assert f.symbol == "" + "PyEval_EvalFrameEx" + ".cold.32";
    if v.AtLeast(Version(3, 6)) {
      assert f.symbol[0] == 'P' && "_TAIL_CALL_"[0] == '_';
      assert "PyEval" <= f.symbol;
    } else {
      ExEvaluates(f, v, "", ".cold.32");
    }
  }

  lemma {:induction false} DefaultIsNotEx(s: string)
    requires s == "_PyEval_EvalFrameDefault.cold.32"
    ensures !Contains(s, "PyEval_EvalFrameEx")
  {
    hide Contains;
    assert "PyEval_EvalFrameEx"[17] == 'x';
    LacksChar(s, "PyEval_EvalFrameEx", 'x');
  }

  lemma {:induction false} ExIsNotDefault(s: string)
    requires s == "PyEval_EvalFrameEx.cold.32"
    ensures !Contains(s, "_PyEval_EvalFrameDefault")
  {
    hide Contains;
    assert "_PyEval_EvalFrameDefault"[17] == 'D';
    LacksChar(s, "_PyEval_EvalFrameDefault", 'D');
  }

  lemma {:induction false} NotOnTheList(s: string)
    requires s != "" && s[0] == 'b'
    ensures forall p :: p in SYMBOL_IGNORELIST ==> !StartsWith(s, p)
  {
    forall p | p in SYMBOL_IGNORELIST ensures !StartsWith(s, p) {
      ListedStart(p);
    }
  }

  lemma {:induction false} ListedStart(p: string)
    requires p in SYMBOL_IGNORELIST
    ensures p != "" && p[0] != 'b'
  {
  }

  predicate NoCapitals(s: string) {
    forall c | c in s :: !('A' <= c <= 'Z')
  }

  lemma {:induction false} LowerStays(s: string)
    requires NoCapitals(s)
    ensures Lower(s) == s && 'E' !in s
  {
    assert forall i :: 0 <= i < |s| ==> s[i] in s;
  }

  lemma {:induction false} NoCapitalsJoin(a: string, b: string)
    requires NoCapitals(a) && NoCapitals(b)
    ensures NoCapitals(a + b)
  {
    assert forall c :: c in a + b ==> c in a || c in b;
  }

  /** A helper of the vectorcall protocol, of a name without capitals that starts with a b as no machinery
      does: shown before 3.8, when there was none, and hidden from then on. */
  lemma {:induction false} VectorcallMachinery(f: NativeFrame, version: Option<Version>, before: string, after: string)
    requires f.symbol == before + "vectorcall" + after && before != "" && before[0] == 'b'
    requires NoCapitals(before) && NoCapitals(after)
    ensures KindOf(f, version) == if version.Some? && version.value.AtLeast(Version(3, 8)) then Ignore else Other
  {
    hide Contains, Lower, NoCapitals;
    VectorcallHasNone();
    NoCapitalsJoin(before, "vectorcall");
    NoCapitalsJoin(before + "vectorcall", after);
    LowerStays(f.symbol);
    ContainsItself(before, "vectorcall", after);
    NotOnTheList(f.symbol);
    BothHaveE();
    LacksChar(f.symbol, "_PyEval_EvalFrameDefault", 'E');
    LacksChar(f.symbol, "PyEval_EvalFrameEx", 'E');
  }

  lemma {:induction false} BothHaveE()
    ensures 'E' in "_PyEval_EvalFrameDefault" && 'E' in "PyEval_EvalFrameEx"
  {
  }

  lemma {:induction false} VectorcallHasNone()
    ensures NoCapitals("vectorcall")
  {
  }
}
