/** String functions that pop a descriptor and push part of the same memory. */
module Strings {
  import opened Stack

  const KMaxStringLength := 255

  datatype Outcome = Done | Argument | StrTooLong | NoMemory

  function Least(a: int, b: int): (r: int)
    ensures r <= a && r <= b && (r == a || r == b)
  {
    if a < b then a else b
  }

  /** LEFT$ */
  method LeftStr(aStack: CStack, maxStack: nat, ghost s: seq<int>, ghost rest: seq<Value>) returns (r: Outcome)
    requires aStack.Valid() && |aStack.items| >= 2 && aStack.items[0].Int16?
    requires aStack.items == [aStack.items[0], Str(s)] + rest
    modifies aStack, aStack.iCell
    ensures r == Argument <==> old(aStack.items)[0].i < 0
    ensures r == Done || r == NoMemory || r == Argument
    ensures r == Done ==> aStack.Valid()
    ensures r == Done ==> aStack.items == [Str(s[..Least(old(aStack.items)[0].i, |s|)])] + rest
    ensures r == NoMemory ==> aStack.iSP < KReserve + maxStack
    ensures r == Done ==> aStack.iSP >= KReserve + maxStack
  {
    hide *;
    var len := aStack.PopInt16();
    var tmpStr := aStack.PopString();
    assert aStack.items == rest;
    if len < 0 {
      return Argument;
    }
    if len > tmpStr.length {
      len := tmpStr.length;
    }
    PartOfText(aStack.iCell[..], tmpStr, s, 0, len);
    var ok := aStack.PushFromStack(TPtrC(tmpStr.pos, len), maxStack);
    r := if ok then Done else NoMemory;
  }

  /** RIGHT$ */
  method RightStr(aStack: CStack, maxStack: nat, ghost s: seq<int>, ghost rest: seq<Value>) returns (r: Outcome)
    requires aStack.Valid() && |aStack.items| >= 2 && aStack.items[0].Int16?
    requires aStack.items == [aStack.items[0], Str(s)] + rest
    modifies aStack, aStack.iCell
    ensures r == Argument <==> old(aStack.items)[0].i < 0
    ensures r == Done || r == NoMemory || r == Argument
    ensures r == Done ==> aStack.Valid()
    ensures r == Done ==> aStack.items == [Str(s[|s| - Least(old(aStack.items)[0].i, |s|)..])] + rest
    ensures r == NoMemory ==> aStack.iSP < KReserve + maxStack
    ensures r == Done ==> aStack.iSP >= KReserve + maxStack
  {
    hide *;
    var len := aStack.PopInt16();
    var tmpStr := aStack.PopString();
    assert aStack.items == rest;
    if len < 0 {
      return Argument;
    }
    if len > tmpStr.length {
      len := tmpStr.length;
    }
    var right := TPtrC(tmpStr.pos + 2 * (tmpStr.length - len), len);
    PartOfText(aStack.iCell[..], tmpStr, s, tmpStr.length - len, len);
    assert s[|s| - len..|s|] == s[|s| - len..];
    var ok := aStack.PushFromStack(right, maxStack);
    r := if ok then Done else NoMemory;
  }

  lemma {:induction false} PartOfText(cell: seq<byte>, d: TPtrC, s: seq<int>, from: nat, length: nat)
    requires d.pos + 2 * d.length <= |cell| && from + length <= d.length && Text(cell, d) == s
    ensures Text(cell, TPtrC(d.pos + 2 * from, length)) == s[from..from + length]
  {
  }

  /** MID$: positions count from 1. */
  method MidStr(aStack: CStack, maxStack: nat, ghost s: seq<int>, ghost rest: seq<Value>) returns (r: Outcome)
    requires aStack.Valid() && |aStack.items| >= 3 && aStack.items[0].Int16? && aStack.items[1].Int16?
    requires aStack.items == [aStack.items[0], aStack.items[1], Str(s)] + rest
    modifies aStack, aStack.iCell
    ensures r == Argument <==>
      var len, off := old(aStack.items)[0].i, old(aStack.items)[1].i; off < 1 || len < 0 || off > |s| + 1
    ensures r == Done || r == NoMemory || r == Argument
    ensures r == Done ==> aStack.Valid()
    ensures r == Done ==>
      var len, off := old(aStack.items)[0].i, old(aStack.items)[1].i;
      aStack.items == [Str(s[off - 1..off - 1 + Least(len, |s| - off + 1)])] + rest
    ensures r == NoMemory ==> aStack.iSP < KReserve + maxStack
    ensures r == Done ==> aStack.iSP >= KReserve + maxStack
  {
    hide *;
    var len := aStack.PopInt16();
    var off := aStack.PopInt16();
    var tmpStr := aStack.PopString();
    assert aStack.items == rest;
    if off < 1 {
      return Argument;
    }
    var tmpLen := tmpStr.length - off + 1;
    if len > tmpLen {
      len := tmpLen;
    }
    if len < 0 {
      return Argument;
    }
    PartOfText(aStack.iCell[..], tmpStr, s, off - 1, len);
    var ok := aStack.PushFromStack(TPtrC(tmpStr.pos + 2 * (off - 1), len), maxStack);
    r := if ok then Done else NoMemory;
  }

  function Repeated(s: seq<int>, n: nat): seq<int> {
    if n == 0 then [] else s + Repeated(s, n - 1)
  }

  lemma {:induction false} RepeatedLength(s: seq<int>, n: nat)
    ensures |Repeated(s, n)| == n * |s|
  {
    if n > 0 {
      RepeatedLength(s, n - 1);
    }
  }

  lemma {:induction false} Multiples(x: int, d: nat)
    ensures (x >= 1 ==> x * d >= d) && (x <= -1 ==> x * d + d <= 0)
  {
  }

  lemma {:induction false} OneLess(k: nat, d: nat)
    requires 0 < d <= k
    ensures (k - d) % d == k % d
  {
    var q, r := k / d, k % d;
    assert k - d == (q - 1) * d + r;
    SameRemainder(k - d, d, q - 1, r);
  }

  lemma {:induction false} SameRemainder(k: nat, d: nat, q: int, r: nat)
    requires 0 < d && r < d && k == q * d + r
    ensures k % d == r
  {
    var q1, r1 := k / d, k % d;
    assert (q - q1) * d == r1 - r;
    Multiples(q - q1, d);
  }

  /** Character by character, the text over and over. */
  lemma {:induction false} RepeatedAt(s: seq<int>, n: nat, k: nat)
    requires k < |Repeated(s, n)|
    ensures s != [] && Repeated(s, n)[k] == s[k % |s|]
  {
    if k >= |s| {
      RepeatedAt(s, n - 1, k - |s|);
      OneLess(k, |s|);
    }
  }

  /** REPT$: through a buffer, so nothing overlaps. */
  method ReptStr(aStack: CStack, maxStack: nat, ghost s: seq<int>, ghost rest: seq<Value>) returns (r: Outcome)
    requires aStack.Valid() && |aStack.items| >= 2 && aStack.items[0].Int16?
    requires aStack.items == [aStack.items[0], Str(s)] + rest
    modifies aStack, aStack.iCell
    ensures r == Argument <==> old(aStack.items)[0].i < 0
    ensures r == StrTooLong <==> old(aStack.items)[0].i >= 0 && old(aStack.items)[0].i * |s| > KMaxStringLength
    ensures r == Done || r == NoMemory || r == Argument || r == StrTooLong
    ensures r == Done ==> aStack.Valid() && aStack.items == [Str(Repeated(s, old(aStack.items)[0].i))] + rest
    ensures r == Done ==>
      var t := aStack.items[0].s;
      |t| == old(aStack.items)[0].i * |s| && forall k :: 0 <= k < |t| ==> s != [] && t[k] == s[k % |s|]
    ensures r == NoMemory ==> aStack.iSP < KReserve + maxStack
    ensures r == Done ==> aStack.iSP >= KReserve + maxStack
  {
    hide CStack.Valid, Text;
    var len := aStack.PopInt16();
    var repStr := aStack.PopString();
    assert aStack.items == rest;
    if len < 0 {
      return Argument;
    }
    if len * repStr.length > KMaxStringLength {
      return StrTooLong;
    }
    var text := Text(aStack.iCell[..], repStr);
    TextInRange(aStack.iCell[..], repStr);
    RepeatedInRange(text, len);
    RepeatedLength(text, len);
    forall k | 0 <= k < |Repeated(text, len)|
      ensures text != [] && Repeated(text, len)[k] == text[k % |text|]
    {
      RepeatedAt(text, len, k);
    }
    var ok := aStack.PushText(Repeated(text, len), maxStack);
    r := if ok then Done else NoMemory;
  }

  lemma {:induction false} TextInRange(cell: seq<byte>, d: TPtrC)
    requires d.pos + 2 * d.length <= |cell|
    ensures forall k :: 0 <= k < d.length ==> 0 <= Text(cell, d)[k] < 0x1_0000
  {
  }

  lemma {:induction false} RepeatedInRange(s: seq<int>, n: nat)
    requires forall k :: 0 <= k < |s| ==> 0 <= s[k] < 0x1_0000
    ensures forall k :: 0 <= k < |Repeated(s, n)| ==> 0 <= Repeated(s, n)[k] < 0x1_0000
  {
    if n > 0 {
      RepeatedInRange(s, n - 1);
    }
  }

  /** The + of strings: the left operand is copied out before the push. */
  method AddString(aStack: CStack, maxStack: nat, ghost l: seq<int>, ghost r: seq<int>, ghost rest: seq<Value>) returns (o: Outcome)
    requires aStack.Valid() && aStack.items == [Str(r), Str(l)] + rest
    modifies aStack, aStack.iCell
    ensures o == StrTooLong <==> |l| + |r| > KMaxStringLength
    ensures o == Done || o == StrTooLong || o == NoMemory
    ensures o == Done ==> aStack.Valid() && aStack.items == [Str(l + r)] + rest
    ensures o == NoMemory ==> aStack.iSP < KReserve + maxStack
    ensures o == Done ==> aStack.iSP >= KReserve + maxStack
  {
    hide CStack.Valid, Text;
    var right := aStack.PopString();
    assert aStack.items == [Str(l)] + rest;
    var left := aStack.PopString();
    assert aStack.items == rest;
    if left.length + right.length > KMaxStringLength {
      return StrTooLong;
    }
    var result := Text(aStack.iCell[..], left) + Text(aStack.iCell[..], right);
    TextInRange(aStack.iCell[..], left);
    TextInRange(aStack.iCell[..], right);
    var ok := aStack.PushText(result, maxStack);
    o := if ok then Done else NoMemory;
  }
}
