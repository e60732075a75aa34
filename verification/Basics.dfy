/** Small vocabulary shared by the other modules: optional values, concatenation of a list of
    lists, reversal, and the machine words the C++ sources compute with. */
module Basics {
  datatype Option<+T> = None | Some(value: T)

  const TWO_32: int := 0x1_0000_0000
  const TWO_63: int := 0x8000_0000_0000_0000
  const TWO_64: int := 0x1_0000_0000_0000_0000

  type word64 = w: int | 0 <= w < TWO_64

  type byte = b: int | 0 <= b < 256

  function Pow2(n: nat): nat {
    if n == 0 then 1 else 2 * Pow2(n - 1)
  }

  function Concat<T>(xss: seq<seq<T>>): seq<T> {
    if xss == [] then [] else xss[0] + Concat(xss[1..])
  }

  lemma {:induction false} ConcatSplit<T>(xss: seq<seq<T>>, yss: seq<seq<T>>)
    ensures Concat(xss + yss) == Concat(xss) + Concat(yss)
  {
    if xss == [] {
      assert xss + yss == yss;
    } else {
      assert (xss + yss)[1..] == xss[1..] + yss;
      ConcatSplit(xss[1..], yss);
    }
  }

  lemma {:induction false} AppendAssociates<T>(xs: seq<T>, ys: seq<T>, zs: seq<T>)
    ensures (xs + ys) + zs == xs + (ys + zs)
  {
  }

  lemma {:induction false} UpdateAt<T>(xs: seq<T>, i: nat, x: T)
    requires i < |xs|
    ensures xs[i := x][..i + 1] == xs[..i] + [x]
    ensures xs[i := x][i + 1..] == xs[i + 1..] == xs[i..][1..]
  {
  }

  function Reverse<T>(xs: seq<T>): (r: seq<T>)
    ensures |r| == |xs|
    ensures forall i :: 0 <= i < |xs| ==> r[i] == xs[|xs| - 1 - i]
  {
    if xs == [] then [] else Reverse(xs[1..]) + [xs[0]]
  }

  /** `part` stands in `data` at position `ptr`. */
  predicate At(data: seq<byte>, ptr: nat, part: seq<byte>) {
    ptr + |part| <= |data| && data[ptr..ptr + |part|] == part
  }

  lemma {:induction false} AtSplit(data: seq<byte>, ptr: nat, x: seq<byte>, y: seq<byte>)
    ensures At(data, ptr, x + y) <==> At(data, ptr, x) && At(data, ptr + |x|, y)
  {
    if ptr + |x| + |y| <= |data| {
      var both := data[ptr..ptr + |x| + |y|];
      assert both == data[ptr..ptr + |x|] + data[ptr + |x|..ptr + |x| + |y|];
      assert both[..|x|] == data[ptr..ptr + |x|] && both[|x|..] == data[ptr + |x|..ptr + |x| + |y|];
      assert (x + y)[..|x|] == x && (x + y)[|x|..] == y;
    }
  }

  lemma {:induction false} AtOne(data: seq<byte>, ptr: nat, b: byte)
    requires At(data, ptr, [b])
    ensures ptr < |data| && data[ptr] == b
  {
    assert data[ptr..ptr + 1][0] == b;
  }

  lemma {:induction false} AtMiddle(before: seq<byte>, part: seq<byte>, after: seq<byte>)
    ensures At(before + part + after, |before|, part)
  {
  }
}
