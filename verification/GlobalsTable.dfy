/** CGlobalsTbl: the globals of all live procedures in sixteen hash buckets.
    Entries go to the head of their bucket and Remove takes the head, whatever
    its name; what that amounts to is dynamic scoping. */
module GlobalsTable {
  import opened Wrappers

  const KGlobalTblSize: nat := 16

  // -------------------------------------------------------------------- hash

  type TText = bv16
  type Name = seq<TText>

  /** Shifted left, then exclusive-or with the character. */
  function Shifted(bits: bv32, c: TText): bv32 {
    (bits << 1) ^ (c as bv32)
  }

  function HashBits(name: Name): bv32 {
    if name == [] then 0 else Shifted(HashBits(name[..|name| - 1]), name[|name| - 1])
  }

  /** A 32 bit word read as a signed integer. */
  function Signed(b: bv32): (r: int)
    ensures -0x8000_0000 <= r < 0x8000_0000
  {
    var u := b as int;
    if u < 0x8000_0000 then u else u - 0x1_0000_0000
  }

  /** Abs on 32 bit words: the smallest integer is its own absolute value. */
  function Abs32(x: int): (r: int)
    requires -0x8000_0000 <= x < 0x8000_0000
    ensures r < 0 <==> x == -0x8000_0000
  {
    if x == -0x8000_0000 then x else if x < 0 then -x else x
  }

  /** The remainder of a division that truncates towards zero. */
  function Remainder(a: int, b: int): int
    requires b > 0
  {
    if a >= 0 then a % b else -((-a) % b)
  }

  /** Always a bucket, even for the one word without an absolute value. */
  function BucketOf(bits: bv32): (h: int)
    ensures 0 <= h < KGlobalTblSize
  {
    Remainder(Abs32(Signed(bits)), KGlobalTblSize)
  }

  function HashValue(name: Name): (h: int)
    ensures 0 <= h < KGlobalTblSize
  {
    BucketOf(HashBits(name))
  }

  lemma {:induction false} HashStarts()
    ensures HashBits([]) == 0
  {
  }

  lemma {:induction false} HashStep(name: Name, k: nat)
    requires k < |name|
    ensures HashBits(name[..k + 1]) == Shifted(HashBits(name[..k]), name[k])
  {
    hide Shifted;
    PrefixOfPrefix(name, k, k + 1);
  }

  /** The loop of GetHashValue. */
  method GetHashValue(aName: Name) returns (hash: nat)
    ensures hash == HashValue(aName) && hash < KGlobalTblSize
  {
    hide HashBits, Shifted, BucketOf;
    var hashValue: bv32 := 0;
    var ii := |aName|;
    HashStarts();
    while ii > 0
      invariant 0 <= ii <= |aName|
      invariant hashValue == HashBits(aName[..|aName| - ii])
    {
      HashStep(aName, |aName| - ii);
      hashValue := Shifted(hashValue, aName[|aName| - ii]);
      ii := ii - 1;
    }
    assert aName[..|aName|] == aName;
    hash := BucketOf(hashValue);
  }

  // ---------------------------------------------------- the table as a list

  /** What a procedure declares, and where the variable is. */
  datatype Global = Global(name: Name, typ: int, ptr: int)

  /** An entry of the table; the allocated node is what is compared when the
      marks are consulted. */
  class TOplGlobal {
    const g: Global

    constructor (aGlobal: Global)
      ensures g == aGlobal
    {
      g := aGlobal;
    }
  }

  /** The entries of one bucket, in order. */
  function Bucket(flat: seq<TOplGlobal>, b: nat): seq<TOplGlobal> {
    if flat == [] then []
    else (if HashValue(flat[0].g.name) == b then [flat[0]] else []) + Bucket(flat[1..], b)
  }

  /** The innermost binding: the first entry with this name and type. */
  function Lookup(flat: seq<TOplGlobal>, name: Name, typ: int): Option<int> {
    if flat == [] then None
    else if flat[0].g.name == name && flat[0].g.typ == typ then Some(flat[0].g.ptr)
    else Lookup(flat[1..], name, typ)
  }

  /** The first entry of that name and type, if there is one. */
  ghost predicate IsInnermost(flat: seq<TOplGlobal>, name: Name, typ: int, k: nat) {
    && k < |flat| && flat[k].g.name == name && flat[k].g.typ == typ
    && forall i :: 0 <= i < k ==> flat[i].g.name != name || flat[i].g.typ != typ
  }

  lemma {:induction false} LookupIsInnermost(flat: seq<TOplGlobal>, name: Name, typ: int)
    ensures var r := Lookup(flat, name, typ);
            && (r.None? <==> forall i :: 0 <= i < |flat| ==> flat[i].g.name != name || flat[i].g.typ != typ)
            && (r.Some? ==> exists k: nat :: IsInnermost(flat, name, typ, k) && r.value == flat[k].g.ptr)
  {
    if flat != [] {
      if flat[0].g.name == name && flat[0].g.typ == typ {
        assert IsInnermost(flat, name, typ, 0);
      } else {
        LookupIsInnermost(flat[1..], name, typ);
        if Lookup(flat, name, typ).Some? {
          var k: nat :| IsInnermost(flat[1..], name, typ, k) && Lookup(flat, name, typ).value == flat[1..][k].g.ptr;
          assert forall i :: 0 < i < k + 1 ==> flat[i] == flat[1..][i - 1];
          assert IsInnermost(flat, name, typ, k + 1);
        }
        assert forall i :: 0 < i < |flat| ==> flat[i] == flat[1..][i - 1];
      }
    }
  }

  /** Looking in the bucket is looking in the whole list. */
  lemma {:induction false} LookupInBucket(flat: seq<TOplGlobal>, name: Name, typ: int)
    ensures Lookup(Bucket(flat, HashValue(name)), name, typ) == Lookup(flat, name, typ)
  {
    var b := HashValue(name);
    if flat != [] {
      LookupInBucket(flat[1..], name, typ);
      if HashValue(flat[0].g.name) == b {
        assert Bucket(flat, b) == [flat[0]] + Bucket(flat[1..], b);
        assert Bucket(flat, b)[1..] == Bucket(flat[1..], b);
      } else {
        assert Bucket(flat, b) == Bucket(flat[1..], b);
      }
    }
  }

  lemma {:induction false} LookupStep(list: seq<TOplGlobal>, i: nat, name: Name, typ: int)
    requires i < |list|
    ensures Lookup(list[i..], name, typ) ==
            if list[i].g.name == name && list[i].g.typ == typ then Some(list[i].g.ptr) else Lookup(list[i + 1..], name, typ)
  {
    assert list[i..][1..] == list[i + 1..];
  }

  lemma {:induction false} LookupEnds(list: seq<TOplGlobal>, name: Name, typ: int)
    requires list == []
    ensures Lookup(list, name, typ) == None
  {
  }

  lemma {:induction false} BucketConcat(a: seq<TOplGlobal>, c: seq<TOplGlobal>, b: nat)
    ensures Bucket(a + c, b) == Bucket(a, b) + Bucket(c, b)
  {
    if a == [] {
      assert a + c == c;
    } else {
      assert (a + c)[1..] == a[1..] + c && (a + c)[0] == a[0];
      BucketConcat(a[1..], c, b);
      var pre := if HashValue(a[0].g.name) == b then [a[0]] else [];
      assert Bucket(a + c, b) == pre + Bucket(a[1..] + c, b);
      Regroup(pre, Bucket(a[1..], b), Bucket(c, b));
    }
  }

  lemma {:induction false} Regroup(p: seq<TOplGlobal>, q: seq<TOplGlobal>, r: seq<TOplGlobal>)
    ensures p + (q + r) == (p + q) + r
  {
  }

  lemma {:induction false} BucketMembers(flat: seq<TOplGlobal>, b: nat)
    ensures forall e :: e in Bucket(flat, b) ==> e in flat
  {
    if flat != [] {
      BucketMembers(flat[1..], b);
    }
  }

  // ------------------------------------------------ a procedure's declarations

  datatype Decl = Decl(name: Name, typ: int, offset: int)

  /** The entries a procedure adds for its first k declarations: last one first. */
  ghost predicate Added(entries: seq<TOplGlobal>, decls: seq<Decl>, cell: int) {
    && |entries| == |decls|
    && forall i :: 0 <= i < |entries| ==>
         entries[i].g == Global(decls[|decls| - 1 - i].name, decls[|decls| - 1 - i].typ,
                                cell + decls[|decls| - 1 - i].offset)
  }

  ghost predicate Declares(decls: seq<Decl>, name: Name, typ: int) {
    exists i :: 0 <= i < |decls| && decls[i].name == name && decls[i].typ == typ
  }

  lemma {:induction false} LookupFinds(flat: seq<TOplGlobal>, name: Name, typ: int)
    ensures Lookup(flat, name, typ).Some? <==> exists i :: 0 <= i < |flat| && flat[i].g.name == name && flat[i].g.typ == typ
  {
    if flat != [] {
      LookupFinds(flat[1..], name, typ);
      assert forall i :: 1 <= i < |flat| ==> flat[i] == flat[1..][i - 1];
      if i :| 0 <= i < |flat[1..]| && flat[1..][i].g.name == name && flat[1..][i].g.typ == typ {
        assert flat[i + 1] == flat[1..][i];
      }
    }
  }

  /** A procedure finds its own globals. */
  lemma {:induction false} AddedFinds(added: seq<TOplGlobal>, decls: seq<Decl>, cell: int, name: Name, typ: int)
    requires Added(added, decls, cell)
    ensures Lookup(added, name, typ).Some? <==> Declares(decls, name, typ)
  {
    LookupFinds(added, name, typ);
    if i :| 0 <= i < |decls| && decls[i].name == name && decls[i].typ == typ {
      assert added[|decls| - 1 - i].g.name == name;
    }
  }

  /** How many of the declared names hash to b. */
  function Hashing(decls: seq<Decl>, b: nat): nat {
    if decls == [] then 0
    else Hashing(decls[..|decls| - 1], b) + (if HashValue(decls[|decls| - 1].name) == b then 1 else 0)
  }

  /** The bucket has one entry for each declared name that hashes there. */
  lemma {:induction false} AddedInBucket(entries: seq<TOplGlobal>, decls: seq<Decl>, cell: int, b: nat)
    requires Added(entries, decls, cell)
    ensures |Bucket(entries, b)| == Hashing(decls, b)
  {
    if decls != [] {
      assert entries[0].g.name == decls[|decls| - 1].name;
      AddedInBucket(entries[1..], decls[..|decls| - 1], cell, b);
    }
  }

  lemma {:induction false} HashingPrefix(decls: seq<Decl>, k: nat, b: nat)
    requires k <= |decls|
    ensures Hashing(decls[..k], b) <= Hashing(decls, b)
    decreases |decls| - k
  {
    if k < |decls| {
      assert decls[..k + 1][..k] == decls[..k];
      HashingPrefix(decls, k + 1, b);
    } else {
      assert decls[..k] == decls;
    }
  }

  /** Declared earlier in another frame further out, and shadowed: the names of
      the newest entries decide. */
  lemma {:induction false} InnermostFirst(added: seq<TOplGlobal>, outer: seq<TOplGlobal>, name: Name, typ: int)
    ensures Lookup(added + outer, name, typ) ==
            if Lookup(added, name, typ).Some? then Lookup(added, name, typ) else Lookup(outer, name, typ)
  {
    if added == [] {
      assert added + outer == outer;
    } else {
      assert (added + outer)[1..] == added[1..] + outer;
      InnermostFirst(added[1..], outer, name, typ);
    }
  }

  // ------------------------------------------------------------------ the table

  /** Every bucket holds the entries of flat that hash there, in the same order. */
  ghost predicate Buckets(lists: seq<seq<TOplGlobal>>, flat: seq<TOplGlobal>) {
    |lists| == KGlobalTblSize && forall b: nat :: b < KGlobalTblSize ==> lists[b] == Bucket(flat, b)
  }

  /** The buckets while the first k declarations of added + rest are removed. */
  ghost predicate Removing(lists: seq<seq<TOplGlobal>>, added: seq<TOplGlobal>, rest: seq<TOplGlobal>, gone: seq<Decl>) {
    && |lists| == KGlobalTblSize
    && forall b: nat :: b < KGlobalTblSize ==>
         && Hashing(gone, b) <= |Bucket(added, b)|
         && lists[b] == Bucket(added, b)[Hashing(gone, b)..] + Bucket(rest, b)
  }

  lemma {:induction false} RemovingStarts(lists: seq<seq<TOplGlobal>>, added: seq<TOplGlobal>, rest: seq<TOplGlobal>)
    requires Buckets(lists, added + rest)
    ensures Removing(lists, added, rest, [])
  {
    forall b: nat | b < KGlobalTblSize
      ensures lists[b] == Bucket(added, b)[0..] + Bucket(rest, b)
    {
      BucketConcat(added, rest, b);
    }
  }

  lemma {:induction false} RemovingEnds(lists: seq<seq<TOplGlobal>>, added: seq<TOplGlobal>,
                                        rest: seq<TOplGlobal>, decls: seq<Decl>, cell: int)
    requires Added(added, decls, cell) && Removing(lists, added, rest, decls)
    ensures Buckets(lists, rest)
  {
    forall b: nat | b < KGlobalTblSize
      ensures lists[b] == Bucket(rest, b)
    {
      AddedInBucket(added, decls, cell, b);
    }
  }

  function Beheaded(lists: seq<seq<TOplGlobal>>, h: nat): seq<seq<TOplGlobal>>
    requires h < |lists| && lists[h] != []
  {
    lists[h := lists[h][1..]]
  }

  /** The head of the bucket is an entry of the frame being removed, although it
      need not be the one with this name. */
  lemma {:induction false} RemovingStep(lists: seq<seq<TOplGlobal>>, added: seq<TOplGlobal>, rest: seq<TOplGlobal>,
                     decls: seq<Decl>, cell: int, k: nat, after: seq<seq<TOplGlobal>>)
    requires Added(added, decls, cell) && k < |decls|
    requires Removing(lists, added, rest, decls[..k])
    requires lists[HashValue(decls[k].name)] != [] ==> after == Beheaded(lists, HashValue(decls[k].name))
    ensures lists[HashValue(decls[k].name)] != []
    ensures Removing(after, added, rest, decls[..k + 1])
  {
    var h := HashValue(decls[k].name);
    forall b: nat | b < KGlobalTblSize
      ensures Hashing(decls[..k + 1], b) == Hashing(decls[..k], b) + (if b == h then 1 else 0) <= |Bucket(added, b)|
    {
      HashingStep(decls, k, b);
      HashingPrefix(decls, k + 1, b);
      AddedInBucket(added, decls, cell, b);
    }
    hide Hashing, Bucket, Added, HashValue;
    BeheadedOnce(Bucket(added, h), Hashing(decls[..k], h), Bucket(rest, h), lists[h]);
  }

  lemma {:induction false} HashingStep(decls: seq<Decl>, k: nat, b: nat)
    requires k < |decls|
    ensures Hashing(decls[..k + 1], b) == Hashing(decls[..k], b) + if b == HashValue(decls[k].name) then 1 else 0
  {
    PrefixOfPrefix(decls, k, k + 1);
    hide HashValue;
  }

  lemma {:induction false} BeheadedOnce(mine: seq<TOplGlobal>, k: nat, rest: seq<TOplGlobal>, bucket: seq<TOplGlobal>)
    requires k < |mine| && bucket == mine[k..] + rest
    ensures bucket != [] && bucket[1..] == mine[k + 1..] + rest
  {
    TailOfConcat(mine[k..], rest);
    DropOneMore(mine, k);
  }

  /** CGlobalsTbl. Ghost flat is the whole table as one list, newest entry first. */
  class CGlobalsTbl {
    const iList: array<seq<TOplGlobal>>
    const iListMark: array<Option<TOplGlobal>>
    ghost var flat: seq<TOplGlobal>

    ghost predicate Shape()
    {
      iList.Length == KGlobalTblSize && iListMark.Length == KGlobalTblSize
    }

    ghost predicate Valid()
      reads this, iList
    {
      Shape() && Buckets(iList[..], flat)
    }

    constructor ()
      ensures Valid() && fresh(iList) && fresh(iListMark) && flat == []
    {
      iList := new seq<TOplGlobal>[KGlobalTblSize](_ => []);
      iListMark := new Option<TOplGlobal>[KGlobalTblSize](_ => None);
      flat := [];
    }

    /** Leaves without a trace when there is no memory for the entry. */
    method AddL(aName: Name, aType: int, aPtr: int, noMemory: bool) returns (ok: bool)
      requires Valid()
      modifies iList, this`flat
      ensures Valid() && ok == !noMemory
      ensures !ok ==> flat == old(flat) && iList[..] == old(iList[..])
      ensures ok ==> |flat| == |old(flat)| + 1 && flat[1..] == old(flat) && fresh(flat[0])
      ensures ok ==> flat[0].g == Global(aName, aType, aPtr)
    {
      var hashValue := GetHashValue(aName);
      if noMemory {
        return false;
      }
      var aGlobal := new TOplGlobal(Global(aName, aType, aPtr));
      ghost var was := iList[..];
      iList[hashValue] := [aGlobal] + iList[hashValue];
      flat := [aGlobal] + flat;
      assert iList[..] == was[hashValue := [aGlobal] + was[hashValue]];
      ok := true;
    }

    /** Takes the head of the bucket, whatever its name. */
    method Remove(aName: Name)
      requires Shape()
      requires iList[HashValue(aName)] != []
      modifies iList
      ensures iList[..] == old(iList[..])[HashValue(aName) := old(iList[HashValue(aName)])[1..]]
    {
      var hashValue := GetHashValue(aName);
      iList[hashValue] := iList[hashValue][1..];
    }

    /** The innermost global of that name and type. */
    method Find(aName: Name, aType: int) returns (ptr: Option<int>)
      requires Valid()
      ensures ptr == Lookup(flat, aName, aType)
      ensures ptr.None? <==> forall i :: 0 <= i < |flat| ==> flat[i].g.name != aName || flat[i].g.typ != aType
      ensures ptr.Some? ==> exists k: nat :: IsInnermost(flat, aName, aType, k) && ptr.value == flat[k].g.ptr
    {
      LookupIsInnermost(flat, aName, aType);
      var hashValue := GetHashValue(aName);
      var list := iList[hashValue];
      assert list == Bucket(flat, hashValue);
      LookupInBucket(flat, aName, aType);
      hide *;
      var i := 0;
      assert list[0..] == list;
      while i < |list|
        invariant 0 <= i <= |list|
        invariant Lookup(list[i..], aName, aType) == Lookup(list, aName, aType)
      {
        LookupStep(list, i, aName, aType);
        if list[i].g.name == aName && list[i].g.typ == aType {
          return Some(list[i].g.ptr);
        }
        i := i + 1;
      }
      LookupEnds(list[i..], aName, aType);
      ptr := None;
    }

    method PrepareToAddC()
      requires Shape()
      modifies iListMark
      ensures forall b :: 0 <= b < KGlobalTblSize ==> iListMark[b] == Head(iList[b])
    {
      var ii := 0;
      while ii < KGlobalTblSize
        invariant 0 <= ii <= KGlobalTblSize
        invariant forall b :: 0 <= b < ii ==> iListMark[b] == Head(iList[b])
      {
        iListMark[ii] := Head(iList[ii]);
        ii := ii + 1;
      }
    }

    /** The clean-up item: pops each bucket back to its mark. */
    method RemoveAddedGlobals(ghost before: seq<TOplGlobal>, ghost added: seq<TOplGlobal>)
      requires Valid() && flat == added + before
      requires forall e :: e in added ==> e !in before
      requires forall b: nat :: b < KGlobalTblSize ==> iListMark[b] == Head(Bucket(before, b))
      modifies iList, this`flat
      ensures Valid() && flat == before
    {
      ghost var lists := iList[..];
      RemovingStarts(lists, added, before);
      var ii := 0;
      while ii < KGlobalTblSize
        invariant 0 <= ii <= KGlobalTblSize
        invariant forall b: nat :: b < ii ==> iList[b] == Bucket(before, b)
        invariant forall b: nat :: ii <= b < KGlobalTblSize ==> iList[b] == lists[b]
      {
        ghost var front := Bucket(added, ii);
        assert lists[ii] == front[0..] + Bucket(before, ii);
        PoppedToMark(front, Bucket(before, ii), iListMark[ii]) by {
          BucketMembers(added, ii);
          BucketMembers(before, ii);
        }
        PopToMark(ii);
        ii := ii + 1;
      }
      flat := before;
    }

    method PopToMark(ii: nat)
      requires Shape() && ii < KGlobalTblSize
      requires Head(PopTo(iList[ii], iListMark[ii])) == iListMark[ii]
      modifies iList
      ensures iList[ii] == PopTo(old(iList[ii]), iListMark[ii])
      ensures forall b :: 0 <= b < KGlobalTblSize && b != ii ==> iList[b] == old(iList[b])
    {
      while Head(iList[ii]) != iListMark[ii]
        invariant PopTo(iList[ii], iListMark[ii]) == PopTo(old(iList[ii]), iListMark[ii])
        invariant forall b :: 0 <= b < KGlobalTblSize && b != ii ==> iList[b] == old(iList[b])
        decreases |iList[ii]|
      {
        iList[ii] := iList[ii][1..];
      }
    }

    /** CProcedure::AddGlobalsL: all of them or, when memory runs out at number
        failsAt, none. */
    method AddGlobalsL(decls: seq<Decl>, cell: int, failsAt: nat) returns (ok: bool, ghost added: seq<TOplGlobal>)
      requires Valid()
      modifies iList, iListMark, this`flat
      ensures Valid() && ok == (failsAt >= |decls|)
      ensures ok ==> Added(added, decls, cell) && flat == added + old(flat)
      ensures !ok ==> flat == old(flat)
    {
      ghost var before := flat;
      added := [];
      PrepareToAddC();
      ghost var marks := iListMark[..];
      var ii := 0;
      while ii < |decls|
        invariant 0 <= ii <= |decls| && ii <= failsAt
        invariant Valid() && flat == added + before
        invariant iListMark[..] == marks
        invariant Added(added, decls[..ii], cell)
        invariant forall e :: e in added ==> fresh(e)
      {
        ok := AddL(decls[ii].name, decls[ii].typ, cell + decls[ii].offset, ii == failsAt);
        if !ok {
          RemoveAddedGlobals(before, added);
          return;
        }
        AddedOneMore(added, decls, cell, ii, flat[0]);
        added := [flat[0]] + added;
        ii := ii + 1;
      }
      assert decls[..|decls|] == decls;
      ok := true;
    }

    /** The removal loop of a frame's destructor: the names in the order of their
        declaration, each taking the head of its bucket. The table is again the
        one from before the frame. */
    method RemoveGlobals(decls: seq<Decl>, ghost cell: int, ghost added: seq<TOplGlobal>, ghost rest: seq<TOplGlobal>)
      requires Valid() && flat == added + rest && Added(added, decls, cell)
      modifies iList, this`flat
      ensures Valid() && flat == rest
    {
      RemovingStarts(iList[..], added, rest);
      var ii := 0;
      while ii < |decls|
        invariant 0 <= ii <= |decls|
        invariant Removing(iList[..], added, rest, decls[..ii])
      {
        ghost var h := HashValue(decls[ii].name);
        RemovingStep(iList[..], added, rest, decls, cell, ii, if iList[h] == [] then [] else iList[..][h := iList[h][1..]]);
        Remove(decls[ii].name);
        ii := ii + 1;
      }
      assert decls[..|decls|] == decls;
      RemovingEnds(iList[..], added, rest, decls, cell);
      flat := rest;
    }
  }

  lemma {:induction false} AddedOneMore(added: seq<TOplGlobal>, decls: seq<Decl>, cell: int, k: nat, e: TOplGlobal)
    requires k < |decls| && Added(added, decls[..k], cell)
    requires e.g == Global(decls[k].name, decls[k].typ, cell + decls[k].offset)
    ensures Added([e] + added, decls[..k + 1], cell)
  {
  }

  /** Pops entries until the head is the marked one. */
  function PopTo(list: seq<TOplGlobal>, mark: Option<TOplGlobal>): seq<TOplGlobal> {
    if Head(list) == mark then list else if list == [] then list else PopTo(list[1..], mark)
  }

  lemma {:induction false} PoppedToMark(front: seq<TOplGlobal>, back: seq<TOplGlobal>, mark: Option<TOplGlobal>)
    requires mark == Head(back)
    requires forall e :: e in front ==> e !in back
    ensures PopTo(front + back, mark) == back
  {
    if front == [] {
      assert front + back == back;
    } else {
      assert (front + back)[1..] == front[1..] + back && (front + back)[0] == front[0];
      assert front[0] in front;
      PoppedToMark(front[1..], back, mark);
    }
  }

  function Head(list: seq<TOplGlobal>): Option<TOplGlobal> {
    if list == [] then None else Some(list[0])
  }
}
