/** The menu a program builds with mCARD, mCASC and MENU: one array of items and
    one of titles, each title with the number of items there were when it came. */
module Menus {
  import opened Wrappers

  type Text = string

  /** On Series 60, where no profile pane is added. */
  const KCommandIdOffset: int := 0x8000

  datatype Item = Item(text: Text, iCommandId: int, iCascadeId: int, iHotKeyCode: int, iSeparatorAfter: bool)

  /** The code of an item without its flags: bits 0 to 7 and bit 10 of its size.
      The sign only asks for a separator. */
  function HotKey(code: int): int {
    var size := if code < 0 then -code else code;
    size % 0x100 + size / 0x400 % 2 * 0x400
  }

  /** Two codes that differ in sign or in flags alone have the same key, which is
      the low byte and bit 10. */
  lemma {:induction false} HotKeyIgnoresFlags(low: nat, bit10: nat, flags: nat)
    requires low < 0x100 && bit10 < 2 && flags % 0x100 == 0 && flags / 0x400 % 2 == 0
    ensures var key := low + 0x400 * bit10; HotKey(key + flags) == HotKey(-(key + flags)) == key
  {
    var high := flags / 0x100 + 4 * bit10;
    assert flags == 0x100 * (flags / 0x100);
    assert low + 0x400 * bit10 + flags == low + 0x100 * high;
    LowByte(high, low);
    assert flags / 0x400 == flags / 0x100 / 4 && high / 4 == flags / 0x400 + bit10;
  }

  lemma {:induction false} LowByte(high: nat, key: nat)
    requires key < 0x100
    ensures (key + 0x100 * high) % 0x100 == key && (key + 0x100 * high) / 0x400 == high / 4
  {
    assert (key + 0x100 * high) / 0x100 == high;
  }

  datatype Title = Title(text: Text, iIsCascade: bool, iOffsetIntoItemsArray: nat)

  function Flat(panes: seq<seq<Item>>): seq<Item> {
    if panes == [] then [] else Flat(panes[..|panes| - 1]) + panes[|panes| - 1]
  }

  /** Each title's offset is the end of its own pane. */
  ghost predicate Offsets(titles: seq<Title>, panes: seq<seq<Item>>) {
    |titles| == |panes| && forall k :: 0 <= k < |titles| ==> titles[k].iOffsetIntoItemsArray == |Flat(panes[..k + 1])|
  }

  lemma {:induction false} FlatPrefix(panes: seq<seq<Item>>, k: nat)
    requires k <= |panes|
    ensures |Flat(panes[..k])| <= |Flat(panes)| && Flat(panes)[..|Flat(panes[..k])|] == Flat(panes[..k])
    decreases |panes| - k
  {
    if k == |panes| {
      assert panes[..k] == panes;
    } else {
      var most := panes[..|panes| - 1];
      FlatPrefix(most, k);
      assert most[..k] == panes[..k];
    }
  }

  /** The items between two offsets are the pane. */
  lemma {:induction false} FlatSlice(panes: seq<seq<Item>>, k: nat)
    requires k < |panes|
    ensures |Flat(panes[..k])| <= |Flat(panes[..k + 1])| <= |Flat(panes)|
    ensures Flat(panes)[|Flat(panes[..k])|..|Flat(panes[..k + 1])|] == panes[k]
  {
    FlatPrefix(panes, k);
    FlatPrefix(panes, k + 1);
    var upTo := panes[..k + 1];
    assert upTo[..k] == panes[..k] && upTo[k] == panes[k];
    assert Flat(upTo) == Flat(panes[..k]) + panes[k];
    assert Flat(panes)[..|Flat(upTo)|][|Flat(panes[..k])|..] == panes[k];
  }

  /** The first cascade of that text. */
  function CascadeIn(titles: seq<Title>, text: Text, from: nat): (r: Option<nat>)
    requires from <= |titles|
    ensures r.None? ==> forall k :: from <= k < |titles| ==> !(titles[k].iIsCascade && titles[k].text == text)
    ensures r.Some? ==> from <= r.value < |titles| && titles[r.value].iIsCascade && titles[r.value].text == text
    ensures r.Some? ==> forall k :: from <= k < r.value ==> !(titles[k].iIsCascade && titles[k].text == text)
    decreases |titles| - from
  {
    if from == |titles| then None
    else if titles[from].iIsCascade && titles[from].text == text then Some(from)
    else CascadeIn(titles, text, from + 1)
  }

  ghost predicate DistinctIds(items: seq<Item>) {
    && (forall i, j :: 0 <= i < j < |items| ==> items[i].iCommandId != items[j].iCommandId)
    && (forall i :: 0 <= i < |items| ==> KCommandIdOffset <= items[i].iCommandId < KCommandIdOffset + |items|)
  }

  lemma {:induction false} InsertedDistinct(done: seq<Item>, pending: seq<Item>, item: Item)
    requires DistinctIds(done + pending) && item.iCommandId == KCommandIdOffset + |done + pending|
    ensures DistinctIds(done + ([item] + pending))
  {
    var was, now, n := done + pending, done + ([item] + pending), |done|;
    forall i, j | 0 <= i < j < |now|
      ensures now[i].iCommandId != now[j].iCommandId
    {
      assert i != n ==> now[i] == was[if i < n then i else i - 1];
      assert j != n ==> now[j] == was[if j < n then j else j - 1];
    }
    forall i | 0 <= i < |now|
      ensures KCommandIdOffset <= now[i].iCommandId < KCommandIdOffset + |now|
    {
      assert i != n ==> now[i] == was[if i < n then i else i - 1];
    }
  }

  class COplMenu {
    /** The id of the first pane, which is not 0. */
    const iPaneIdOffset: int
    var iMenuItemsArray: seq<Item>
    var iMenuTitleArray: seq<Title>
    /** The finished panes, and the items of the one to come. */
    ghost var panes: seq<seq<Item>>
    ghost var pending: seq<Item>

    ghost predicate Valid()
      reads this
    {
      && iMenuItemsArray == Flat(panes) + pending && Offsets(iMenuTitleArray, panes)
      && DistinctIds(iMenuItemsArray) && iPaneIdOffset > 0
    }

    constructor (paneIdOffset: int)
      requires paneIdOffset > 0
      ensures Valid() && panes == [] && pending == []
    {
      iPaneIdOffset := paneIdOffset;
      iMenuItemsArray, iMenuTitleArray, panes, pending := [], [], [], [];
    }

    /** CascadeId: only a text that ends in > can be one. */
    method CascadeId(aMatchItemText: Text) returns (id: int)
      ensures
        var found := CascadeIn(iMenuTitleArray, aMatchItemText, 0);
        id == if EndsInArrow(aMatchItemText) && found.Some? then found.value + iPaneIdOffset else 0
    {
      if !EndsInArrow(aMatchItemText) {
        return 0;
      }
      var index := 0;
      while index < |iMenuTitleArray|
        invariant 0 <= index <= |iMenuTitleArray|
        invariant CascadeIn(iMenuTitleArray, aMatchItemText, index) == CascadeIn(iMenuTitleArray, aMatchItemText, 0)
      {
        if iMenuTitleArray[index].iIsCascade && iMenuTitleArray[index].text == aMatchItemText {
          return index + iPaneIdOffset;
        }
        index := index + 1;
      }
      id := 0;
    }

    /** Inserts the item before the others of the pane to come: a pane lists its
        items the other way round. A key of at most 32 is no hot key but only
        numbers the item; any other must be a letter, which the locale knows. */
    method AddMenuItemL(aItemText: Text, aHotKeyCode: int, isAlpha: bool) returns (ok: bool)
      requires Valid()
      modifies this`iMenuItemsArray, this`pending
      ensures Valid() && (ok <==> HotKey(aHotKeyCode) >= 1 && (HotKey(aHotKeyCode) <= 32 || isAlpha))
      ensures !ok ==> pending == old(pending)
      ensures ok ==> |pending| == |old(pending)| + 1 && pending[1..] == old(pending)
      ensures ok ==> pending[0].iCommandId == |old(iMenuItemsArray)| + KCommandIdOffset
      ensures ok ==> pending[0].iHotKeyCode == HotKey(aHotKeyCode) && pending[0].iSeparatorAfter == (aHotKeyCode < 0)
      ensures ok && pending[0].iCascadeId == 0 ==> pending[0].text == aItemText
      ensures ok && pending[0].iCascadeId != 0 ==> (
                var k := pending[0].iCascadeId - iPaneIdOffset;
                && 0 <= k < |iMenuTitleArray| && iMenuTitleArray[k].iIsCascade
                && iMenuTitleArray[k].text == aItemText == pending[0].text + ">"
                && forall j :: 0 <= j < k ==> !iMenuTitleArray[j].iIsCascade || iMenuTitleArray[j].text != aItemText)
      ensures ok && pending[0].iCascadeId == 0 && aItemText != [] && aItemText[|aItemText| - 1] == '>' ==>
                forall j :: 0 <= j < |iMenuTitleArray| ==> !iMenuTitleArray[j].iIsCascade || iMenuTitleArray[j].text != aItemText
    {
      var id := CascadeId(aItemText);
      var text := if id != 0 then aItemText[..|aItemText| - 1] else aItemText;
      var key := HotKey(aHotKeyCode);
      var item := Item(text, |iMenuItemsArray| + KCommandIdOffset, id, key, aHotKeyCode < 0);
      if key < 1 || (key > 32 && !isAlpha) {
        return false;
      }
      var offset := if iMenuTitleArray == [] then 0 else iMenuTitleArray[|iMenuTitleArray| - 1].iOffsetIntoItemsArray;
      assert panes[..|panes|] == panes;
      assert offset == |Flat(panes)|;
      InsertedAt(Flat(panes), pending, item);
      InsertedDistinct(Flat(panes), pending, item);
      iMenuItemsArray := iMenuItemsArray[..offset] + [item] + iMenuItemsArray[offset..];
      pending := [item] + pending;
      ok := true;
    }

    /** The items so far are the pane of this title. */
    method AddMenuTitleL(aTitleText: Text, aIsCasc: bool)
      requires Valid()
      modifies this`iMenuTitleArray, this`panes, this`pending
      ensures Valid() && panes == old(panes) + [old(pending)] && pending == []
      ensures |iMenuTitleArray| == |old(iMenuTitleArray)| + 1 && iMenuTitleArray[..|old(iMenuTitleArray)|] == old(iMenuTitleArray)
      ensures iMenuTitleArray[|old(iMenuTitleArray)|].text == aTitleText
      ensures iMenuTitleArray[|old(iMenuTitleArray)|].iIsCascade == aIsCasc
    {
      OneMorePane(iMenuTitleArray, panes, pending, aTitleText, aIsCasc);
      iMenuTitleArray := iMenuTitleArray + [Title(aTitleText, aIsCasc, |iMenuItemsArray|)];
      panes := panes + [pending];
      assert panes[..|panes| - 1] == old(panes);
      pending := [];
    }

    /** RestoreMenuL for one pane shows exactly the items added for it. */
    method RestorePane(aWindowId: int) returns (shown: seq<Item>)
      requires Valid() && 0 <= aWindowId - iPaneIdOffset < |iMenuTitleArray|
      ensures shown == panes[aWindowId - iPaneIdOffset]
    {
      var arrayPos := aWindowId - iPaneIdOffset;
      var start := 0;
      var offset := iMenuTitleArray[arrayPos].iOffsetIntoItemsArray;
      if arrayPos != 0 {
        start := iMenuTitleArray[arrayPos - 1].iOffsetIntoItemsArray;
      }
      FlatSlice(panes, arrayPos);
      shown := [];
      var ii := start;
      while ii < offset
        invariant start <= ii <= offset <= |Flat(panes)|
        invariant shown == Flat(panes)[start..ii]
      {
        shown := shown + [iMenuItemsArray[ii]];
        ii := ii + 1;
      }
    }
  }

  predicate EndsInArrow(text: Text) {
    text != [] && text[|text| - 1] == '>'
  }

  lemma {:induction false} InsertedAt(done: seq<Item>, pending: seq<Item>, item: Item)
    ensures (done + pending)[..|done|] + [item] + (done + pending)[|done|..] == done + ([item] + pending)
  {
  }

  lemma {:induction false} OneMorePane(titles: seq<Title>, panes: seq<seq<Item>>, pending: seq<Item>, text: Text, isCasc: bool)
    requires Offsets(titles, panes)
    ensures Offsets(titles + [Title(text, isCasc, |Flat(panes) + pending|)], panes + [pending])
  {
    var more := panes + [pending];
    assert more[..|panes|] == panes && more[..|panes| + 1] == more;
    forall k | 0 <= k < |titles|
      ensures titles[k].iOffsetIntoItemsArray == |Flat(more[..k + 1])|
    {
      assert more[..k + 1] == panes[..k + 1];
    }
  }
}
