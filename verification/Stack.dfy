/** CStack: the argument stack. Values of different sizes lie in one array of
    bytes and the stack grows downwards; strings take a length word, their
    characters and padding up to a multiple of four. */
module Stack {
  import opened Wrappers

  type byte = x: int | 0 <= x < 0x100

  /** The room below iBase, never handed out. */
  const KReserve: nat := 256
  const KMinimumCell: nat := 512

  /** The largest fixed size of a value. Pushing one is not checked against
      iBase outside debug builds; it only has to stay inside the cell. */
  const KSlack: nat := 8

  datatype Value =
    | Int16(i: int)
    | Int32(l: int)
    | Real(bits: seq<byte>)
    | Str(s: seq<int>)
    | Ref(address: int)

  ghost predicate InRange(v: Value) {
    match v
    case Int16(i) => -0x8000 <= i < 0x8000
    case Int32(l) => -0x8000_0000 <= l < 0x8000_0000
    case Real(bits) => |bits| == 8
    case Str(s) => |s| < 0x8000 && forall k :: 0 <= k < |s| ==> 0 <= s[k] < 0x1_0000
    case Ref(a) => -0x8000_0000 <= a < 0x8000_0000
  }

  /** The length word and the characters, rounded up. */
  function StringSize(length: nat): (r: nat)
    ensures r % 4 == 0 && 2 * length + 2 <= r <= 2 * length + 5
  {
    (2 * length + 5) / 4 * 4
  }

  function Size(v: Value): (r: nat)
    ensures r % 4 == 0 && r >= 4
  {
    match v
    case Int16(_) => 4
    case Int32(_) => 4
    case Real(_) => 8
    case Str(s) => StringSize(|s|)
    case Ref(_) => 4
  }

  // ------------------------------------------------------------------- bytes

  /** Two's complement, low byte first. */
  function LongBytes(x: int): (b: seq<byte>)
    requires -0x8000_0000 <= x < 0x8000_0000
    ensures |b| == 4
  {
    var u := if x < 0 then x + 0x1_0000_0000 else x;
    [u % 0x100, u / 0x100 % 0x100, u / 0x1_0000 % 0x100, u / 0x100_0000]
  }

  function Word(b: seq<byte>, p: nat): int
    requires p + 2 <= |b|
  {
    b[p] as int + 0x100 * b[p + 1] as int
  }

  function SignedWord(b: seq<byte>, p: nat): (r: int)
    requires p + 2 <= |b|
    ensures -0x8000 <= r < 0x8000
  {
    if Word(b, p) < 0x8000 then Word(b, p) else Word(b, p) - 0x1_0000
  }

  function SignedLong(b: seq<byte>, p: nat): (r: int)
    requires p + 4 <= |b|
    ensures -0x8000_0000 <= r < 0x8000_0000
  {
    var u := b[p] as int + 0x100 * b[p + 1] as int + 0x1_0000 * b[p + 2] as int + 0x100_0000 * b[p + 3] as int;
    if u < 0x8000_0000 then u else u - 0x1_0000_0000
  }

  /** Reading four bytes back, and reading only the low two of a 16 bit value
      that was pushed as 32 bits. */
  lemma {:induction false} LongRoundTrip(x: int)
    requires -0x8000_0000 <= x < 0x8000_0000
    ensures SignedLong(LongBytes(x), 0) == x
    ensures -0x8000 <= x < 0x8000 ==> SignedWord(LongBytes(x), 0) == x
  {
    var u := if x < 0 then x + 0x1_0000_0000 else x;
    FourDigits(u);
  }

  lemma {:induction false} FourDigits(u: nat)
    requires u < 0x1_0000_0000
    ensures u / 0x100_0000 < 0x100
    ensures u == u % 0x100 + 0x100 * (u / 0x100 % 0x100) + 0x1_0000 * (u / 0x1_0000 % 0x100) + 0x100_0000 * (u / 0x100_0000)
  {
    assert u == u % 0x100 + 0x100 * (u / 0x100);
    assert u / 0x100 == u / 0x100 % 0x100 + 0x100 * (u / 0x1_0000);
    assert u / 0x1_0000 == u / 0x1_0000 % 0x100 + 0x100 * (u / 0x100_0000);
  }

  /** The bytes b are the value v; the padding of a string may be anything. */
  ghost predicate Holds(b: seq<byte>, v: Value) {
    && InRange(v)
    && |b| == Size(v)
    && match v
       case Int16(i) => b == LongBytes(i)
       case Int32(l) => b == LongBytes(l)
       case Real(bits) => b == bits
       case Str(s) => Word(b, 0) == |s| && IsText(b, 2, s)
       case Ref(a) => b == LongBytes(a)
  }

  /** The characters of s, two bytes each, from p on. */
  ghost predicate IsText(b: seq<byte>, p: nat, s: seq<int>) {
    p + 2 * |s| <= |b| && forall k :: 0 <= k < |s| ==> Word(b, p + 2 * k) == s[k]
  }

  function TotalSize(items: seq<Value>): (r: nat)
    ensures r % 4 == 0
  {
    if items == [] then 0 else Size(items[0]) + TotalSize(items[1..])
  }

  /** The bytes b are the values of items, first item at the lowest address. */
  ghost predicate HoldsAll(b: seq<byte>, items: seq<Value>) {
    if items == [] then b == []
    else |b| >= Size(items[0]) && Holds(b[..Size(items[0])], items[0]) && HoldsAll(b[Size(items[0])..], items[1..])
  }

  lemma {:induction false} HoldsAllSize(b: seq<byte>, items: seq<Value>)
    requires HoldsAll(b, items)
    ensures |b| == TotalSize(items)
  {
    if items != [] {
      HoldsAllSize(b[Size(items[0])..], items[1..]);
    }
  }

  lemma {:induction false} HoldsAllPush(b: seq<byte>, rest: seq<byte>, v: Value, items: seq<Value>)
    requires Holds(b, v) && HoldsAll(rest, items)
    ensures HoldsAll(b + rest, [v] + items)
  {
    assert (b + rest)[..Size(v)] == b;
    assert (b + rest)[Size(v)..] == rest;
    assert ([v] + items)[1..] == items;
  }

  lemma {:induction false} TotalSizeConcat(a: seq<Value>, c: seq<Value>)
    ensures TotalSize(a + c) == TotalSize(a) + TotalSize(c)
  {
    if a == [] {
      assert a + c == c;
    } else {
      assert (a + c)[1..] == a[1..] + c;
      TotalSizeConcat(a[1..], c);
    }
  }

  /** Dropping the newest values drops exactly their bytes. */
  lemma {:induction false} HoldsAllDrop(b: seq<byte>, newer: seq<Value>, older: seq<Value>)
    requires HoldsAll(b, newer + older)
    ensures TotalSize(newer) <= |b| && HoldsAll(b[TotalSize(newer)..], older)
  {
    if newer == [] {
      assert newer + older == older;
      assert b[0..] == b;
    } else {
      var n := Size(newer[0]);
      assert (newer + older)[1..] == newer[1..] + older && (newer + older)[0] == newer[0];
      HoldsAllDrop(b[n..], newer[1..], older);
      assert b[n..][TotalSize(newer[1..])..] == b[TotalSize(newer)..];
    }
  }

  // -------------------------------------------------------------- parameters

  function TypeOf(v: Value): int {
    match v
    case Int16(_) => 0
    case Int32(_) => 1
    case Real(_) => 2
    case Str(_) => 3
    case Ref(_) => 9
  }

  /** The value lies at ptr. */
  ghost predicate PtrTo(cell: seq<byte>, ptr: int, v: Value) {
    0 <= ptr && ptr + Size(v) <= |cell| && Holds(cell[ptr..ptr + Size(v)], v)
  }

  /** What a call pushes: each argument with its type above it, the last
      argument first in args. */
  function ArgBlock(args: seq<Value>): seq<Value> {
    if args == [] then [] else [Int16(TypeOf(args[0])), args[0]] + ArgBlock(args[1..])
  }

  /** Where the arguments of a block at sp lie, the first parameter first. */
  function ParamTable(sp: int, args: seq<Value>): (t: seq<int>)
    ensures |t| == |args|
    decreases args
  {
    if args == [] then [] else ParamTable(sp + 4 + Size(args[0]), args[1..]) + [sp + 4]
  }

  /** The table points to the arguments, which are listed the other way round. */
  ghost predicate Points(cell: seq<byte>, table: seq<int>, args: seq<Value>) {
    |table| == |args| && forall i :: 0 <= i < |args| ==> PtrTo(cell, table[|args| - 1 - i], args[i])
  }

  lemma {:induction false} ParamTableStep(sp: int, args: seq<Value>)
    requires args != []
    ensures ParamTable(sp, args) == ParamTable(sp + 4 + Size(args[0]), args[1..]) + [sp + 4]
  {
  }

  lemma {:induction false} NothingToPointTo(cell: seq<byte>, sp: int)
    ensures Points(cell, ParamTable(sp, []), [])
  {
  }

  lemma {:induction false} ArgOnTop(cell: seq<byte>, sp: nat, v: Value, tail: seq<Value>)
    requires sp <= |cell| && HoldsAll(cell[sp..], [Int16(TypeOf(v)), v] + tail)
    ensures PtrTo(cell, sp + 4, v)
    ensures sp + 4 + Size(v) <= |cell| && HoldsAll(cell[sp + 4 + Size(v)..], tail)
  {
    var items := [Int16(TypeOf(v)), v] + tail;
    assert items[1..] == [v] + tail && items[1..][1..] == tail;
    assert cell[sp..][4..] == cell[sp + 4..] && cell[sp + 4..][Size(v)..] == cell[sp + 4 + Size(v)..];
    assert cell[sp + 4..][..Size(v)] == cell[sp + 4..sp + 4 + Size(v)];
  }

  lemma {:induction false} PointsMore(cell: seq<byte>, table: seq<int>, ptr: int, args: seq<Value>)
    requires args != [] && Points(cell, table, args[1..]) && PtrTo(cell, ptr, args[0])
    ensures Points(cell, table + [ptr], args)
  {
    forall i | 0 <= i < |args|
      ensures PtrTo(cell, (table + [ptr])[|args| - 1 - i], args[i])
    {
      if i > 0 {
        assert PtrTo(cell, table[|args| - 1 - i], args[1..][i - 1]);
      }
    }
  }

  lemma {:induction false} ParamTableHolds(cell: seq<byte>, sp: nat, args: seq<Value>, rest: seq<Value>)
    requires sp <= |cell| && HoldsAll(cell[sp..], ArgBlock(args) + rest)
    ensures Points(cell, ParamTable(sp, args), args)
    decreases args
  {
    hide *;
    if args == [] {
      NothingToPointTo(cell, sp);
    } else {
      var tail := args[1..];
      assert args[0..] == args;
      ArgBlockStep(args, 0, rest);
      ParamTableStep(sp, args);
      ArgOnTop(cell, sp, args[0], ArgBlock(tail) + rest);
      var next := sp + 4 + Size(args[0]);
      ParamTableHolds(cell, next, tail, rest);
      PointsMore(cell, ParamTable(next, tail), sp + 4, args);
    }
  }

  /** Arguments, with their number on top. */
  function CallBlock(args: seq<Value>): seq<Value> {
    [Int16(|args|)] + ArgBlock(args)
  }

  ghost predicate Passable(args: seq<Value>) {
    |args| < 0x8000 && forall i :: 0 <= i < |args| ==> !args[i].Ref?
  }

  /** Of one type, the bytes hold one value only. */
  lemma {:induction false} HoldsInjective(b: seq<byte>, v: Value, w: Value)
    requires Holds(b, v) && Holds(b, w) && TypeOf(v) == TypeOf(w)
    ensures v == w
  {
    match v
    case Str(s) =>
      forall k | 0 <= k < |s|
        ensures s[k] == w.s[k]
      {
        assert Word(b, 2 + 2 * k) == s[k];
        assert Word(b, 2 + 2 * k) == w.s[k];
      }
    case Int16(i) => LongRoundTrip(i); LongRoundTrip(w.i);
    case Int32(l) => LongRoundTrip(l); LongRoundTrip(w.l);
    case Ref(a) => LongRoundTrip(a); LongRoundTrip(w.address);
    case Real(_) =>
  }

  // ------------------------------------------------------------------- class

  /** A descriptor: length characters at position pos of the cell. Popping a
      string gives one, and the memory it points to is already free. */
  datatype TPtrC = TPtrC(pos: nat, length: nat)

  /** The characters a descriptor shows. */
  function Text(cell: seq<byte>, d: TPtrC): (s: seq<int>)
    requires d.pos + 2 * d.length <= |cell|
    ensures |s| == d.length
  {
    seq(d.length, k requires 0 <= k < d.length => Word(cell, d.pos + 2 * k))
  }

  class CStack {
    const iCell: array<byte>
    var iSP: int
    /** The values on the stack, newest first. */
    ghost var items: seq<Value>

    /** From sp upwards the cell holds exactly these values. */
    ghost predicate Above(sp: int, values: seq<Value>)
      reads iCell
    {
      0 <= sp <= iCell.Length && HoldsAll(iCell[sp..], values)
    }

    ghost predicate Valid()
      reads this, iCell
    {
      iCell.Length >= KMinimumCell && iCell.Length % 4 == 0 && Above(iSP, items)
    }

    constructor (aSize: nat)
      ensures Valid() && fresh(iCell) && items == [] && iSP == iCell.Length
      ensures iCell.Length >= aSize && (aSize <= KMinimumCell ==> iCell.Length == KMinimumCell)
    {
      var size := (aSize + 3) / 4 * 4;
      var length := if size > KMinimumCell then size else KMinimumCell;
      iCell := new byte[length];
      iSP := length;
      items := [];
    }

    method FreeBytes() returns (free: int)
      ensures free == iSP - KReserve
    {
      free := iSP - KReserve;
    }

    method StackPtr() returns (sp: int)
      ensures sp == iSP
    {
      sp := iSP;
    }

    /** To any position from which the cell still holds known values. */
    method SetStackPtr(sp: int, ghost values: seq<Value>)
      requires iCell.Length >= KMinimumCell && iCell.Length % 4 == 0 && Above(sp, values)
      modifies this
      ensures Valid() && iSP == sp && items == values
    {
      iSP := sp;
      items := values;
    }

    /** To any position at all; what is there is up to the caller. */
    method MoveTo(sp: int, ghost values: seq<Value>)
      modifies this
      ensures iSP == sp && items == values
    {
      iSP := sp;
      items := values;
    }

    /** Writes bytes below the stack pointer and moves it there. */
    method Put(b: seq<byte>)
      requires |b| <= iSP <= iCell.Length
      modifies this`iSP, iCell
      ensures iSP == old(iSP) - |b|
      ensures iCell[..] == old(iCell[..iSP - |b|]) + b + old(iCell[iSP..])
    {
      iSP := iSP - |b|;
      forall k | 0 <= k < |b| {
        iCell[iSP + k] := b[k];
      }
    }

    /** A value of fixed size. */
    method PutValue(b: seq<byte>, ghost v: Value)
      requires Valid() && iSP >= KSlack && |b| <= 8 && Holds(b, v)
      modifies this, iCell
      ensures Valid() && items == [v] + old(items) && iSP == old(iSP) - Size(v)
      ensures iCell[old(iSP)..] == old(iCell[iSP..]) && iCell[..iSP] == old(iCell[..])[..iSP]
    {
      ghost var was := iCell[iSP..];
      ghost var below := iCell[..iSP - |b|];
      Put(b);
      Parts(iCell[..], below, b, was);
      HoldsAllPush(b, was, v, items);
      items := [v] + items;
    }

    /** Sixteen bits, pushed as thirty-two. */
    method PushInt16(aInt16: int)
      requires Valid() && iSP >= KSlack && InRange(Int16(aInt16))
      modifies this, iCell
      ensures Valid() && items == [Int16(aInt16)] + old(items) && iSP == old(iSP) - 4
      ensures iCell[old(iSP)..] == old(iCell[iSP..]) && iCell[..iSP] == old(iCell[..])[..iSP]
    {
      PutValue(LongBytes(aInt16), Int16(aInt16));
    }

    method PushInt32(aInt32: int)
      requires Valid() && iSP >= KSlack && InRange(Int32(aInt32))
      modifies this, iCell
      ensures Valid() && items == [Int32(aInt32)] + old(items) && iSP == old(iSP) - 4
      ensures iCell[old(iSP)..] == old(iCell[iSP..]) && iCell[..iSP] == old(iCell[..])[..iSP]
    {
      PutValue(LongBytes(aInt32), Int32(aInt32));
    }

    method PushReal64(aReal: seq<byte>)
      requires Valid() && iSP >= KSlack && |aReal| == 8
      modifies this, iCell
      ensures Valid() && items == [Real(aReal)] + old(items) && iSP == old(iSP) - 8
      ensures iCell[old(iSP)..] == old(iCell[iSP..]) && iCell[..iSP] == old(iCell[..])[..iSP]
    {
      PutValue(aReal, Real(aReal));
    }

    method PushRef(aPtr: int)
      requires Valid() && iSP >= KSlack && InRange(Ref(aPtr))
      modifies this, iCell
      ensures Valid() && items == [Ref(aPtr)] + old(items) && iSP == old(iSP) - 4
      ensures iCell[old(iSP)..] == old(iCell[iSP..]) && iCell[..iSP] == old(iCell[..])[..iSP]
    {
      PutValue(LongBytes(aPtr), Ref(aPtr));
    }

    /** Moves past the newest value. */
    method Skip(size: nat)
      requires Valid() && items != [] && size == Size(items[0])
      modifies this
      ensures Valid() && items == old(items)[1..] && iSP == old(iSP) + size
    {
      assert iCell[iSP..][size..] == iCell[iSP + size..];
      iSP := iSP + size;
      items := items[1..];
    }

    method PopInt16() returns (aInt16: int)
      requires Valid() && items != [] && items[0].Int16?
      modifies this
      ensures Valid() && aInt16 == old(items)[0].i
      ensures items == old(items)[1..] && iSP == old(iSP) + 4
    {
      LongRoundTrip(items[0].i);
      assert iCell[iSP..][..4] == LongBytes(items[0].i);
      aInt16 := SignedWord(iCell[iSP..iSP + 2], 0);
      Skip(4);
    }

    method PopInt32() returns (aInt32: int)
      requires Valid() && items != [] && items[0].Int32?
      modifies this
      ensures Valid() && aInt32 == old(items)[0].l
      ensures items == old(items)[1..] && iSP == old(iSP) + 4
    {
      LongRoundTrip(items[0].l);
      assert iCell[iSP..iSP + 4] == LongBytes(items[0].l);
      aInt32 := SignedLong(iCell[iSP..iSP + 4], 0);
      Skip(4);
    }

    method PopReal64() returns (aReal: seq<byte>)
      requires Valid() && items != [] && items[0].Real?
      modifies this
      ensures Valid() && aReal == old(items)[0].bits
      ensures items == old(items)[1..] && iSP == old(iSP) + 8
    {
      aReal := iCell[iSP..iSP + 8];
      assert aReal == iCell[iSP..][..8];
      Skip(8);
    }

    method PopPtr() returns (aPtr: int)
      requires Valid() && items != [] && items[0].Ref?
      modifies this
      ensures Valid() && aPtr == old(items)[0].address
      ensures items == old(items)[1..] && iSP == old(iSP) + 4
    {
      LongRoundTrip(items[0].address);
      assert iCell[iSP..iSP + 4] == LongBytes(items[0].address);
      aPtr := SignedLong(iCell[iSP..iSP + 4], 0);
      Skip(4);
    }

    // --------------------------------------------------------------- strings

    /** The characters, then the length word, into a gap already made. */
    method WriteString(chars: seq<byte>, length: nat, ghost to: nat, ghost s: seq<int>)
      requires 0 <= iSP && iSP + StringSize(length) == to <= iCell.Length
      requires length == |s| && |chars| == 2 * length && InRange(Str(s)) && IsText(chars, 0, s)
      modifies iCell
      ensures Holds(iCell[iSP..to], Str(s))
      ensures iCell[to..] == old(iCell[to..])
    {
      forall k | 0 <= k < 2 * length {
        iCell[iSP + 2 + k] := chars[k];
      }
      iCell[iSP], iCell[iSP + 1] := length % 0x100, length / 0x100;
      StringIsThere(iCell[iSP..to], chars, s);
    }

    /** Room for the string first; then the string. Leaves with the pointer
        already moved when that would eat into the room the current procedure
        may still need. */
    method PutString(chars: seq<byte>, length: nat, maxStack: nat, ghost s: seq<int>) returns (ok: bool)
      requires Valid() && length == |s| && |chars| == 2 * length && InRange(Str(s)) && IsText(chars, 0, s)
      modifies this, iCell
      ensures iSP == old(iSP) - StringSize(length) && ok == (iSP >= KReserve + maxStack)
      ensures ok ==> Valid() && items == [Str(s)] + old(items)
      ensures !ok ==> iCell[..] == old(iCell[..])
      ensures iCell[old(iSP)..] == old(iCell[iSP..])
    {
      ghost var was := iCell[iSP..];
      ghost var from := iSP;
      iSP := iSP - StringSize(length);
      if KReserve + maxStack > iSP {
        return false;
      }
      WriteString(chars, length, from, s);
      SplitAt(iCell[..], iSP, from);
      HoldsAllPush(iCell[iSP..from], was, Str(s), items);
      items := [Str(s)] + items;
      ok := true;
    }

    /** A string from elsewhere. */
    method PushText(aDes: seq<int>, maxStack: nat) returns (ok: bool)
      requires Valid() && InRange(Str(aDes))
      modifies this, iCell
      ensures iSP == old(iSP) - StringSize(|aDes|) && ok == (iSP >= KReserve + maxStack)
      ensures ok ==> Valid() && items == [Str(aDes)] + old(items)
      ensures iCell[old(iSP)..] == old(iCell[iSP..])
    {
      TextBytesAre(aDes);
      ok := PutString(TextBytes(aDes), |aDes|, maxStack, aDes);
    }

    /** A string that lies in the cell, as a descriptor popped before: source and
        target may overlap. */
    method PushFromStack(aDes: TPtrC, maxStack: nat) returns (ok: bool)
      requires Valid() && aDes.pos + 2 * aDes.length <= iCell.Length && aDes.length < 0x8000
      modifies this, iCell
      ensures iSP == old(iSP) - StringSize(aDes.length) && ok == (iSP >= KReserve + maxStack)
      ensures ok ==> Valid() && items == [Str(Text(old(iCell[..]), aDes))] + old(items)
      ensures iCell[old(iSP)..] == old(iCell[iSP..])
    {
      ghost var s := Text(iCell[..], aDes);
      var chars := iCell[aDes.pos..aDes.pos + 2 * aDes.length];
      TextIsThere(iCell[..], aDes, chars);
      ok := PutString(chars, aDes.length, maxStack, s);
    }

    method PopString() returns (d: TPtrC)
      requires Valid() && items != [] && items[0].Str?
      modifies this
      ensures Valid() && d.pos + 2 * d.length <= iSP <= iCell.Length && d.length == |old(items)[0].s| && d.length < 0x8000
      ensures Text(iCell[..], d) == old(items)[0].s
      ensures items == old(items)[1..] && iSP == old(iSP) + Size(old(items)[0])
    {
      ghost var s := items[0].s;
      ghost var b := iCell[iSP..][..Size(items[0])];
      assert Holds(b, items[0]);
      assert iCell[iSP] == b[0] && iCell[iSP + 1] == b[1];
      var length := iCell[iSP] as int + 0x100 * iCell[iSP + 1] as int;
      d := TPtrC(iSP + 2, length);
      assert Text(iCell[..], d) == s by {
        forall k | 0 <= k < length
          ensures Word(iCell[..], d.pos + 2 * k) == s[k]
        {
          assert Word(b, 2 + 2 * k) == s[k];
        }
      }
      Skip(StringSize(length));
    }

    // ------------------------------------------------------------ parameters

    /** Past one value, going by the type that was pushed above it. */
    method JumpParam(aType: int)
      requires Valid() && items != [] && aType == TypeOf(items[0]) && !items[0].Ref?
      modifies this
      ensures Valid() && items == old(items)[1..] && iSP == old(iSP) + Size(old(items)[0])
    {
      if aType == 0 || aType == 1 {
        Skip(4);
      } else if aType == 2 {
        Skip(8);
      } else {
        ghost var b := iCell[iSP..][..Size(items[0])];
        assert Holds(b, items[0]);
        assert iCell[iSP] == b[0] && iCell[iSP + 1] == b[1];
        Skip(StringSize(iCell[iSP] as int + 0x100 * iCell[iSP + 1] as int));
      }
    }

    /** Drops the arguments of a call with their types and their number. */
    method UnwindParams(ghost args: seq<Value>, ghost rest: seq<Value>)
      requires Valid() && items == CallBlock(args) + rest && Passable(args)
      modifies this
      ensures Valid() && items == rest && iSP == old(iSP) + TotalSize(CallBlock(args)) >= old(iSP) + 4
    {
      CallBlockOnTop(args, rest);
      hide Valid, TotalSize, TypeOf, ArgBlock, CallBlock;
      ghost var from := iSP;
      var count := PopInt16();
      ghost var k := 0;
      assert args[0..] == args;
      while count > 0
        invariant 0 <= k <= |args| && count == |args| - k
        invariant Valid() && items == ArgBlock(args[k..]) + rest
        invariant iSP + TotalSize(ArgBlock(args[k..])) == from + TotalSize(CallBlock(args))
      {
        count := count - 1;
        ArgAndType(args, k, rest);
        var type_ := PopInt16();
        JumpParam(type_);
        k := k + 1;
      }
      NoArgsLeft(args, rest);
    }

    method CheckParamCountL(aCount: int) returns (ok: bool)
      requires Valid() && items != [] && items[0].Int16?
      modifies this
      ensures Valid() && items == old(items)[1..] && iSP == old(iSP) + 4
      ensures ok == (aCount == old(items)[0].i)
    {
      var count := PopInt16();
      ok := aCount == count;
    }

    /** Leaves before the value when the type above it is not the declared one. */
    method NextParamL(aType: int) returns (ok: bool, ptr: int)
      requires Valid() && |items| >= 2 && !items[1].Ref? && items[0] == Int16(TypeOf(items[1]))
      modifies this
      ensures ok == (aType == TypeOf(old(items)[1])) && ptr == old(iSP) + 4
      ensures Valid() && items == old(items)[if ok then 2 else 1..]
      ensures ok ==> iSP == old(iSP) + 4 + Size(old(items)[1])
    {
      var type_ := PopInt16();
      ptr := iSP;
      ok := aType == type_;
      if ok {
        JumpParam(aType);
      }
    }

    /** Moves the bytes of one value up to just below the stack pointer, over
        whatever was there. */
    method PushBytesFrom(pVal: int, sizeOfVal: nat, ghost v: Value)
      requires Valid() && 0 <= pVal && pVal + sizeOfVal <= iCell.Length && sizeOfVal <= iSP
      requires Holds(iCell[pVal..pVal + sizeOfVal], v)
      modifies this, iCell
      ensures Valid() && items == [v] + old(items) && iSP == old(iSP) - Size(v)
      ensures iCell[old(iSP)..] == old(iCell[iSP..])
    {
      var b := iCell[pVal..pVal + sizeOfVal];
      ghost var was := iCell[iSP..];
      ghost var below := iCell[..iSP - |b|];
      Put(b);
      Parts(iCell[..], below, b, was);
      HoldsAllPush(b, was, v, items);
      items := [v] + items;
    }
  }

  lemma {:induction false} Parts(whole: seq<byte>, below: seq<byte>, b: seq<byte>, was: seq<byte>)
    requires whole == below + b + was
    ensures whole[|below|..] == b + was && whole[|below| + |b|..] == was && whole[..|below|] == below
  {
  }

  lemma {:induction false} SplitAt(whole: seq<byte>, from: nat, to: nat)
    requires from <= to <= |whole|
    ensures whole[from..] == whole[from..to] + whole[to..]
  {
  }

  lemma {:induction false} StringIsThere(b: seq<byte>, chars: seq<byte>, s: seq<int>)
    requires InRange(Str(s)) && |chars| == 2 * |s| && IsText(chars, 0, s)
    requires |b| == StringSize(|s|) && b[0] == |s| % 0x100 && b[1] == |s| / 0x100
    requires forall k :: 0 <= k < |chars| ==> b[2 + k] == chars[k]
    ensures Holds(b, Str(s))
  {
    forall k | 0 <= k < |s|
      ensures Word(b, 2 + 2 * k) == s[k]
    {
      assert Word(chars, 0 + 2 * k) == s[k];
      assert b[2 + 2 * k] == chars[2 * k] && b[2 + (2 * k + 1)] == chars[2 * k + 1];
    }
  }

  function TextBytes(s: seq<int>): (b: seq<byte>)
    requires InRange(Str(s))
    ensures |b| == 2 * |s|
  {
    seq(2 * |s|, k requires 0 <= k < 2 * |s| => if k % 2 == 0 then s[k / 2] % 0x100 else s[k / 2] / 0x100)
  }

  lemma {:induction false} TextBytesAre(s: seq<int>)
    requires InRange(Str(s))
    ensures IsText(TextBytes(s), 0, s)
  {
    forall k | 0 <= k < |s|
      ensures Word(TextBytes(s), 0 + 2 * k) == s[k]
    {
      assert (2 * k) % 2 == 0 && (2 * k) / 2 == k && (2 * k + 1) % 2 == 1 && (2 * k + 1) / 2 == k;
    }
  }

  lemma {:induction false} TextIsThere(cell: seq<byte>, d: TPtrC, chars: seq<byte>)
    requires d.pos + 2 * d.length <= |cell| && d.length < 0x8000
    requires chars == cell[d.pos..d.pos + 2 * d.length]
    ensures IsText(chars, 0, Text(cell, d)) && InRange(Str(Text(cell, d)))
  {
    forall k | 0 <= k < d.length
      ensures Word(chars, 0 + 2 * k) == Text(cell, d)[k]
    {
      assert chars[2 * k] == cell[d.pos + 2 * k] && chars[2 * k + 1] == cell[d.pos + 2 * k + 1];
    }
  }

  lemma {:induction false} ArgBlockStep(args: seq<Value>, k: nat, rest: seq<Value>)
    requires k < |args|
    ensures ArgBlock(args[k..]) + rest == [Int16(TypeOf(args[k])), args[k]] + (ArgBlock(args[k + 1..]) + rest)
    ensures TotalSize(ArgBlock(args[k..])) == 4 + Size(args[k]) + TotalSize(ArgBlock(args[k + 1..]))
  {
    assert args[k..][1..] == args[k + 1..];
    var two := [Int16(TypeOf(args[k])), args[k]];
    assert ArgBlock(args[k..]) == two + ArgBlock(args[k + 1..]);
    TotalSizeConcat(two, ArgBlock(args[k + 1..]));
    assert two[1..] == [args[k]] && [args[k]][1..] == [];
  }

  /** The next argument is on top, below its type. */
  lemma {:induction false} ArgAndType(args: seq<Value>, k: nat, rest: seq<Value>)
    requires k < |args|
    ensures var s := ArgBlock(args[k..]) + rest;
            && |s| >= 2 && s[0] == Int16(TypeOf(args[k])) && s[1..][0] == args[k]
            && s[1..][1..] == ArgBlock(args[k + 1..]) + rest
    ensures TotalSize(ArgBlock(args[k..])) == 4 + Size(args[k]) + TotalSize(ArgBlock(args[k + 1..]))
  {
    hide ArgBlock, TotalSize, TypeOf;
    ArgBlockStep(args, k, rest);
  }

  lemma {:induction false} NoArgsLeft(args: seq<Value>, rest: seq<Value>)
    ensures ArgBlock(args[|args|..]) + rest == rest && TotalSize(ArgBlock(args[|args|..])) == 0
  {
  }

  lemma {:induction false} CallBlockOnTop(args: seq<Value>, rest: seq<Value>)
    ensures var s := CallBlock(args) + rest;
            s != [] && s[0] == Int16(|args|) && s[1..] == ArgBlock(args) + rest
    ensures TotalSize(CallBlock(args)) == 4 + TotalSize(ArgBlock(args))
  {
    hide ArgBlock;
    ConcatAssoc([Int16(|args|)], ArgBlock(args), rest);
    TailOfConcat([Int16(|args|)], ArgBlock(args) + rest);
  }

  // -------------------------------------------------------------------- room

  /** What the operands of fixed size take, of which a procedure declares how much
      it may need, and what the strings take. */
  function NonString(mine: seq<Value>): (n: nat)
    ensures n % 4 == 0
  {
    if mine == [] then 0 else (if mine[0].Str? then 0 else Size(mine[0])) + NonString(mine[1..])
  }

  function StringBytes(mine: seq<Value>): (n: nat)
    ensures n % 4 == 0
  {
    if mine == [] then 0 else (if mine[0].Str? then Size(mine[0]) else 0) + StringBytes(mine[1..])
  }

  /** The strings among the operands of a procedure whose frame is at top leave it
      the room that it declared. */
  predicate LeavesRoom(mine: seq<Value>, top: int, maxStack: nat) {
    top - StringBytes(mine) - maxStack / 4 * 4 >= KReserve
  }

  lemma {:induction false} StringsAndOthers(mine: seq<Value>)
    ensures TotalSize(mine) == StringBytes(mine) + NonString(mine)
  {
    if mine != [] {
      StringsAndOthers(mine[1..]);
    }
  }

  lemma {:induction false} RoomConcat(a: seq<Value>, b: seq<Value>)
    ensures StringBytes(a + b) == StringBytes(a) + StringBytes(b) && NonString(a + b) == NonString(a) + NonString(b)
  {
    if a == [] {
      assert a + b == b;
    } else {
      assert (a + b)[1..] == a[1..] + b;
      RoomConcat(a[1..], b);
    }
  }

  lemma {:induction false} RoomDrop(newer: seq<Value>, mine: seq<Value>, top: int, maxStack: nat)
    ensures LeavesRoom(newer + mine, top, maxStack) ==> LeavesRoom(mine, top, maxStack)
  {
    RoomConcat(newer, mine);
  }

  /** Only a string can take room away, and none that leaves the declared room
      below itself does. */
  lemma {:induction false} RoomPush(v: Value, mine: seq<Value>, top: int, maxStack: nat)
    ensures !v.Str? ==> (LeavesRoom([v] + mine, top, maxStack) <==> LeavesRoom(mine, top, maxStack))
    ensures v.Str? && top - TotalSize([v] + mine) >= KReserve + maxStack ==> LeavesRoom([v] + mine, top, maxStack)
  {
    assert ([v] + mine)[1..] == mine;
    StringsAndOthers([v] + mine);
  }

  lemma {:induction false} NoStrings(top: int, maxStack: nat)
    ensures LeavesRoom([], top, maxStack) <==> top - KReserve >= maxStack / 4 * 4
  {
  }

  ghost predicate NoneIsString(mine: seq<Value>) {
    forall i :: 0 <= i < |mine| ==> !mine[i].Str?
  }

  /** Whatever the procedure pushes from here on, as long as it is of fixed size and
      within what it declared: the pointer stays above iBase. */
  ghost predicate NeverBelowBase(mine: seq<Value>, top: int, maxStack: nat) {
    forall newer: seq<Value> :: NoneIsString(newer) && NonString(newer + mine) <= maxStack ==>
      top - TotalSize(newer + mine) >= KReserve
  }

  lemma {:induction false} RoomFor(newer: seq<Value>, mine: seq<Value>, top: int, maxStack: nat)
    requires LeavesRoom(mine, top, maxStack) && NoneIsString(newer) && NonString(newer + mine) <= maxStack
    ensures top - TotalSize(newer + mine) >= KReserve
  {
    StringsAndOthers(newer + mine);
    RoomConcat(newer, mine);
    NoStringBytes(newer);
    hide NonString, StringBytes, TotalSize, NoneIsString;
  }

  /** Zeros that fill what was declared, and no room for them. */
  lemma {:induction false} NoRoomFor(mine: seq<Value>, top: int, maxStack: nat) returns (zeros: seq<Value>)
    requires !LeavesRoom(mine, top, maxStack) && NonString(mine) <= maxStack
    ensures NoneIsString(zeros) && NonString(zeros + mine) <= maxStack && top - TotalSize(zeros + mine) < KReserve
  {
    var n := (maxStack / 4 * 4 - NonString(mine)) / 4;
    zeros := seq(n, _ => Int16(0));
    ZerosTake(n);
    RoomConcat(zeros, mine);
    StringsAndOthers(zeros + mine);
    hide NonString, StringBytes, TotalSize;
  }

  /** Exactly when the strings leave room. */
  lemma {:induction false} RoomExactly(mine: seq<Value>, top: int, maxStack: nat)
    requires NonString(mine) <= maxStack
    ensures NeverBelowBase(mine, top, maxStack) <==> LeavesRoom(mine, top, maxStack)
  {
    hide NonString, TotalSize, NoneIsString, LeavesRoom;
    if LeavesRoom(mine, top, maxStack) {
      forall newer: seq<Value> | NoneIsString(newer) && NonString(newer + mine) <= maxStack
        ensures top - TotalSize(newer + mine) >= KReserve
      {
        RoomFor(newer, mine, top, maxStack);
      }
    } else {
      var zeros := NoRoomFor(mine, top, maxStack);
    }
  }

  lemma {:induction false} NoStringBytes(mine: seq<Value>)
    requires NoneIsString(mine)
    ensures StringBytes(mine) == 0
  {
    if mine != [] {
      NoStringBytes(mine[1..]);
    }
  }

  lemma {:induction false} ZerosTake(n: nat)
    ensures var zeros := seq(n, _ => Int16(0)); NonString(zeros) == 4 * n && StringBytes(zeros) == 0
  {
    var zeros := seq(n, _ => Int16(0));
    if n > 0 {
      assert zeros[1..] == seq(n - 1, _ => Int16(0));
      ZerosTake(n - 1);
    }
  }
}
