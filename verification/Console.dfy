/** COplConsole: text layout on a grid of characters. Print draws in chunks, as
    long as the line allows; what it means is one character at a time. */
module Console {

  const KTabStop: nat := 8

  /** Screen size and the three locks. */
  datatype Settings = Settings(width: nat, height: nat, scrollLock: bool, wrapLock: bool, lastLineWrap: bool) {
    predicate Valid() { width >= 1 && height >= 1 }
  }

  /** The cursor, counted from 1, and the rows of the screen. */
  datatype Screen = Screen(x: int, y: int, rows: seq<string>)

  /** The characters of Unicode category Cc. */
  predicate IsControl(c: char) {
    c < ' ' || '\U{7F}' <= c < '\U{A0}'
  }

  predicate Printable(s: string) {
    forall i :: 0 <= i < |s| ==> !IsControl(s[i])
  }

  function Blank(n: nat): string { seq(n, i => ' ') }

  function BlankScreen(c: Settings): seq<string> { seq(c.height, i => Blank(c.width)) }

  /** Where the cursor can be: in the rectangle, just below it, or parked just
      off the end of the last line. */
  predicate InRange(c: Settings, v: Screen) {
    && c.Valid()
    && |v.rows| == c.height && (forall r :: 0 <= r < c.height ==> |v.rows[r]| == c.width)
    && 1 <= v.x <= c.width + 1 && 1 <= v.y <= c.height + 1
    && (v.x == c.width + 1 ==> v.y == c.height)
  }

  /** Parked off the end of the line only when nothing says where to wrap to. */
  predicate ParkedProperly(c: Settings, v: Screen) {
    v.x == c.width + 1 ==> !c.wrapLock && !c.lastLineWrap
  }

  function Scrolled(c: Settings, rows: seq<string>): (r: seq<string>)
    requires |rows| == c.height >= 1
    ensures |r| == c.height
  {
    rows[1..] + [Blank(c.width)]
  }

  function BelowScreen(c: Settings, v: Screen): Screen
    requires InRange(c, v)
  {
    if v.y <= c.height then v
    else if c.scrollLock then Screen(1, c.height, v.rows)
    else Screen(v.x, v.y - 1, Scrolled(c, v.rows))
  }

  /** A cursor position where a character can be drawn, scrolling if need be. */
  function Normalise(c: Settings, v: Screen): (r: Screen)
    requires InRange(c, v)
    ensures InRange(c, r) && r.x <= c.width && r.y <= c.height
  {
    if v.x > c.width then BelowScreen(c, Screen(1, v.y + 1, v.rows)) else BelowScreen(c, v)
  }

  function Wrapped(c: Settings, v: Screen): (r: Screen)
    requires InRange(c, v.(x := 1)) && 1 <= v.x && v.y <= c.height
    ensures InRange(c, r) && r.rows == v.rows
    ensures ParkedProperly(c, r) && (v.x <= c.width ==> r == v)
  {
    if v.x <= c.width then v
    else if c.wrapLock then v.(x := c.width)
    else if !c.lastLineWrap && v.y == c.height then v.(x := c.width + 1)
    else v.(x := 1, y := v.y + 1)
  }

  function Overwrite(row: string, at: nat, s: string): (r: string)
    requires at + |s| <= |row|
    ensures |r| == |row|
  {
    row[..at] + s + row[at + |s|..]
  }

  /** Draws text from the cursor on, which must be inside the rectangle. */
  function Drawn(c: Settings, v: Screen, s: string): (r: Screen)
    requires InRange(c, v) && v.y <= c.height && v.x + |s| <= c.width + 1
    ensures |r.rows| == c.height && forall k :: 0 <= k < c.height ==> |r.rows[k]| == c.width
  {
    Screen(v.x + |s|, v.y, v.rows[v.y - 1 := Overwrite(v.rows[v.y - 1], v.x - 1, s)])
  }

  function TabPosition(x: int): int { (x + (KTabStop - 1)) / KTabStop * KTabStop + 1 }

  /** The effect of a control character at a normalised position. */
  function Control(c: Settings, v: Screen, ch: char): (r: Screen)
    requires InRange(c, v) && v.x <= c.width && v.y <= c.height
    ensures InRange(c, r) && ParkedProperly(c, r)
  {
    match ch
    case '\U{08}' => v.(x := if v.x > 1 then v.x - 1 else v.x)
    case '\U{09}' => Wrapped(c, v.(x := TabPosition(v.x)))
    case '\U{0A}' => v.(y := v.y + 1)
    case '\U{0C}' => Screen(1, 1, BlankScreen(c))
    case '\U{0D}' => v.(x := 1)
    case _ => v
  }

  /** Printing one character. */
  function Step(c: Settings, v: Screen, ch: char): (r: Screen)
    requires InRange(c, v)
    ensures InRange(c, r) && ParkedProperly(c, r)
  {
    var n := Normalise(c, v);
    if IsControl(ch) then Control(c, n, ch) else Wrapped(c, Drawn(c, n, [ch]))
  }

  /** Printing a text character by character. */
  function PrintEach(c: Settings, v: Screen, s: string): (r: Screen)
    requires InRange(c, v)
    ensures InRange(c, r) && (s != [] ==> ParkedProperly(c, r))
  {
    if s == [] then v else Step(c, PrintEach(c, v, s[..|s| - 1]), s[|s| - 1])
  }

  // ------------------------------------------------------- what can be seen

  /** The text stands from the cursor on, one character in each cell, and no
      other cell has changed. */
  predicate StandsAt(v: Screen, s: string, r: Screen) {
    && |r.rows| == |v.rows|
    && forall i :: 0 <= i < |v.rows| ==>
         && |r.rows[i]| == |v.rows[i]|
         && forall j :: 0 <= j < |v.rows[i]| ==>
              r.rows[i][j] == if i == v.y - 1 && v.x - 1 <= j < v.x - 1 + |s| then s[j - (v.x - 1)] else v.rows[i][j]
  }

  predicate IsBlank(row: string) {
    forall j :: 0 <= j < |row| ==> row[j] == ' '
  }

  /** Every row has moved up by one and the last is blank. */
  predicate MovedUp(was: seq<string>, now: seq<string>) {
    && |now| == |was| && (forall i :: 0 <= i < |was| - 1 ==> now[i] == was[i + 1])
    && (was != [] ==> IsBlank(now[|now| - 1]))
  }

  lemma {:induction false} DrawnStands(c: Settings, v: Screen, s: string)
    requires InRange(c, v) && v.y <= c.height && v.x + |s| <= c.width + 1
    ensures StandsAt(v, s, Drawn(c, v, s))
  {
  }

  /** A pending wrap or scroll, done: with the scroll lock on the cursor goes to
      the start of the last line, else the rows move up under it. */
  lemma {:induction false} NormaliseMoves(c: Settings, v: Screen)
    requires InRange(c, v)
    ensures var r := Normalise(c, v);
            var due := v.x > c.width || v.y > c.height;
            && (!due ==> r == v)
            && (due ==> r.y == c.height && r.x == if v.x > c.width || c.scrollLock then 1 else v.x)
            && (due && c.scrollLock ==> r.rows == v.rows)
            && (due && !c.scrollLock ==> MovedUp(v.rows, r.rows))
  {
  }

  /** Past the right edge: to the last column under the wrap lock, to the start of
      the next line, or just off the end of the last line. */
  lemma {:induction false} WrappedMoves(c: Settings, v: Screen)
    requires InRange(c, v.(x := 1)) && 1 <= v.x && v.y <= c.height
    ensures var r := Wrapped(c, v);
            var past := v.x > c.width; var last := v.y == c.height && !c.lastLineWrap;
            && r.rows == v.rows && (!past ==> r.x == v.x && r.y == v.y)
            && (past && c.wrapLock ==> r.x == c.width && r.y == v.y)
            && (past && !c.wrapLock && last ==> r.x == c.width + 1 && r.y == v.y)
            && (past && !c.wrapLock && !last ==> r.x == 1 && r.y == v.y + 1)
  {
  }

  /** Tab stops are in the columns 9, 17, 25 and so on. */
  predicate IsNextTabStop(x: int, stop: int) {
    x < stop && (stop - 1) % KTabStop == 0 && stop - x <= KTabStop
  }

  lemma {:induction false} TabStopIsNext(x: int)
    requires x >= 1
    ensures IsNextTabStop(x, TabPosition(x))
  {
  }

  /** What each control character does at a normalised position: a step back, on
      to the next tab stop, a line down, a blank screen, the start of the line, and
      nothing for the others, the bell too. */
  ghost predicate ControlDone(c: Settings, v: Screen, ch: char, r: Screen)
    requires InRange(c, v) && v.x <= c.width && v.y <= c.height
  {
    match ch
    case '\U{08}' => r.rows == v.rows && r.y == v.y && (r.x == v.x - 1 || (v.x == 1 && r.x == 1))
    case '\U{09}' =>
      exists stop :: IsNextTabStop(v.x, stop)
                     && if stop <= c.width then r == Screen(stop, v.y, v.rows) else r == Wrapped(c, v.(x := c.width + 1))
    case '\U{0A}' => r.rows == v.rows && r.x == v.x && r.y == v.y + 1
    case '\U{0C}' => r.x == 1 && r.y == 1 && |r.rows| == c.height && forall i :: 0 <= i < c.height ==> IsBlank(r.rows[i])
    case '\U{0D}' => r.rows == v.rows && r.x == 1 && r.y == v.y
    case _ => r == v
  }

  lemma {:induction false} ControlIsDone(c: Settings, v: Screen, ch: char)
    requires InRange(c, v) && v.x <= c.width && v.y <= c.height
    ensures ControlDone(c, v, ch, Control(c, v, ch))
  {
    if ch == '\U{09}' {
      TabStopIsNext(v.x);
    }
  }

  /** The same screen as far as anything drawn from now on can tell. */
  predicate Same(c: Settings, a: Screen, b: Screen)
    requires InRange(c, a) && InRange(c, b)
  {
    Normalise(c, a) == Normalise(c, b)
  }

  lemma {:induction false} NormaliseTwice(c: Settings, v: Screen)
    requires InRange(c, v)
    ensures Normalise(c, Normalise(c, v)) == Normalise(c, v)
  {
  }

  lemma {:induction false} PrintEachSame(c: Settings, a: Screen, b: Screen, s: string)
    requires InRange(c, a) && InRange(c, b) && Same(c, a, b)
    ensures Same(c, PrintEach(c, a, s), PrintEach(c, b, s))
  {
    if s != [] {
      PrintEachSame(c, a, b, s[..|s| - 1]);
    }
  }

  lemma {:induction false} PrintEachConcat(c: Settings, v: Screen, s: string, t: string)
    requires InRange(c, v)
    ensures PrintEach(c, v, s + t) == PrintEach(c, PrintEach(c, v, s), t)
  {
    if t == [] {
      assert s + t == s;
    } else {
      assert (s + t)[..|s + t| - 1] == s + t[..|t| - 1];
      PrintEachConcat(c, v, s, t[..|t| - 1]);
    }
  }

  /** What a call of Print may leave behind. */
  predicate PrintOutcome(c: Settings, before: Screen, s: string, after: Screen) {
    InRange(c, before) && InRange(c, after) && Same(c, after, PrintEach(c, before, s))
  }

  /** Printing two texts in two calls or in one makes no difference. */
  lemma {:induction false} PrintIsIndependentOfChunking(c: Settings, before: Screen, s: string, t: string,
                                  middle: Screen, after: Screen, whole: Screen)
    requires PrintOutcome(c, before, s, middle) && PrintOutcome(c, middle, t, after)
    requires PrintOutcome(c, before, s + t, whole)
    ensures Same(c, after, whole)
  {
    PrintEachConcat(c, before, s, t);
    PrintEachSame(c, middle, PrintEach(c, before, s), t);
  }

  /** A run of printable characters that fits the line can be drawn at once. */
  lemma {:induction false} DrawnAtOnce(c: Settings, v: Screen, s: string)
    requires InRange(c, v) && v.x <= c.width && v.y <= c.height
    requires s != [] && Printable(s) && v.x + |s| <= c.width + 1
    ensures PrintEach(c, v, s) == Wrapped(c, Drawn(c, v, s))
  {
    var n := |s| - 1;
    if n == 0 {
      assert s[..0] == [] && s == [s[0]];
    } else {
      DrawnAtOnce(c, v, s[..n]);
      DrawnInTwo(c, v, s[..n], [s[n]]);
      assert s == s[..n] + [s[n]];
    }
  }

  lemma {:induction false} DrawnInTwo(c: Settings, v: Screen, s: string, t: string)
    requires InRange(c, v) && v.x <= c.width && v.y <= c.height
    requires t != [] && v.x + |s| + |t| <= c.width + 1
    ensures InRange(c, Drawn(c, v, s)) && Drawn(c, Drawn(c, v, s), t) == Drawn(c, v, s + t)
  {
    var row := v.rows[v.y - 1];
    assert Overwrite(Overwrite(row, v.x - 1, s), v.x - 1 + |s|, t) == Overwrite(row, v.x - 1, s + t);
  }

  lemma {:induction false} PrintEachOneMore(c: Settings, v: Screen, text: string, i: nat)
    requires InRange(c, v) && i < |text|
    ensures PrintEach(c, v, text[..i + 1]) == Step(c, PrintEach(c, v, text[..i]), text[i])
  {
    assert text[..i + 1][..i] == text[..i];
  }

  /** Extending what has been printed by one character. */
  lemma {:induction false} PrintedOne(c: Settings, v: Screen, text: string, i: nat, before: Screen, after: Screen)
    requires InRange(c, v) && InRange(c, before) && InRange(c, after) && i < |text|
    requires Same(c, before, PrintEach(c, v, text[..i]))
    requires Same(c, after, Step(c, before, text[i]))
    ensures Same(c, after, PrintEach(c, v, text[..i + 1]))
  {
    hide InRange, Normalise, PrintEach, Control, Wrapped, Drawn, BelowScreen;
    PrintEachOneMore(c, v, text, i);
  }

  lemma {:induction false} TakeSplit(s: string, i: nat, j: nat)
    requires i <= j <= |s|
    ensures s[..j] == s[..i] + s[i..j]
  {
  }

  /** Extending it by a chunk. */
  lemma {:induction false} PrintedChunk(c: Settings, v: Screen, text: string, i: nat, j: nat, before: Screen)
    requires InRange(c, v) && InRange(c, before) && i <= j <= |text|
    requires Same(c, before, PrintEach(c, v, text[..i]))
    ensures Same(c, PrintEach(c, Normalise(c, before), text[i..j]), PrintEach(c, v, text[..j]))
  {
    TakeSplit(text, i, j);
    NormaliseTwice(c, before);
    hide InRange, Normalise, PrintEach;
    PrintEachConcat(c, v, text[..i], text[i..j]);
    PrintEachSame(c, Normalise(c, before), PrintEach(c, v, text[..i]), text[i..j]);
  }

  lemma {:induction false} PrintableMore(text: string, i: nat, j: nat)
    requires i <= j < |text| && Printable(text[i..j]) && !IsControl(text[j])
    ensures Printable(text[i..j + 1])
  {
    assert text[i..j + 1] == text[i..j] + [text[j]];
  }

  /** A text without control characters that does not go past the line. */
  predicate FitsLine(c: Settings, n: Screen, text: string) {
    text != [] && Printable(text) && n.x + |text| <= c.width + 1
  }

  ghost predicate Inside(c: Settings, n: Screen) {
    InRange(c, n) && n.x <= c.width && n.y <= c.height
  }

  /** A text that fits the line is all drawn; and what a control character alone
      does is done. */
  ghost predicate LineShown(c: Settings, n: Screen, text: string, all: bool, r: Screen) {
    && Inside(c, n)
    && (FitsLine(c, n, text) ==> all && r == Wrapped(c, Drawn(c, n, text)))
    && (|text| == 1 && IsControl(text[0]) ==> r == Control(c, n, text[0]))
  }

  /** The same while the line is read: what is to be drawn begins at ptr. */
  ghost predicate PartShown(c: Settings, n: Screen, text: string, start: nat, ptr: nat, i: nat, r: Screen) {
    && Inside(c, n) && start <= ptr <= i <= |text| && start < |text|
    && (i == start || FitsLine(c, n, text[start..]) ==> ptr == start && r == n)
    && (i == start + 1 && IsControl(text[start]) ==> ptr == i && r == Control(c, n, text[start]))
    && (i == start + 1 && !IsControl(text[start]) ==> ptr == start && r == n)
  }

  lemma {:induction false} NothingShown(c: Settings, n: Screen, text: string, start: nat)
    requires Inside(c, n) && start < |text|
    ensures PartShown(c, n, text, start, start, start, n)
  {
  }

  lemma {:induction false} MoreShown(c: Settings, n: Screen, text: string, start: nat, ptr: nat, i: nat, r: Screen)
    requires PartShown(c, n, text, start, ptr, i, r) && i < |text| && !IsControl(text[i])
    ensures PartShown(c, n, text, start, ptr, i + 1, r)
  {
  }

  lemma {:induction false} ControlShown(c: Settings, n: Screen, text: string, start: nat, ptr: nat, i: nat,
                                        before: Screen, r: Screen)
    requires PartShown(c, n, text, start, ptr, i, before) && i < |text| && IsControl(text[i])
    requires ptr == i && Inside(c, before) ==> r == Control(c, before, text[i])
    ensures PartShown(c, n, text, start, i + 1, i + 1, r)
  {
    assert text[start..][i - start] == text[i];
    hide InRange, Control;
  }

  lemma {:induction false} LineEnds(c: Settings, n: Screen, text: string, start: nat, ptr: nat, i: nat,
                                    before: Screen, r: Screen)
    requires PartShown(c, n, text, start, ptr, i, before) && start < i
    requires i == |text| || i - ptr >= c.width - before.x + 1
    requires ptr == i ==> r == before
    requires ptr < i && Inside(c, before) && before.x + (i - ptr) <= c.width + 1 ==>
               r == Wrapped(c, Drawn(c, before, text[ptr..i]))
    ensures LineShown(c, n, text[start..], i == |text|, r)
  {
    hide InRange, Control, Wrapped, Drawn;
    assert |text[start..]| == |text| - start && text[start..|text|] == text[start..];
    assert text[start..][0] == text[start];
  }

  /** What is left over from a line is not a text that fits it. */
  lemma {:induction false} MoreThanALine(c: Settings, n: Screen, text: string, r: Screen, all: bool, later: Screen)
    requires LineShown(c, n, text, false, r) && |text| > 1
    ensures LineShown(c, n, text, all, later)
  {
  }

  lemma {:induction false} LineShownMeans(c: Settings, n: Screen, text: string, r: Screen)
    requires LineShown(c, n, text, true, r)
    ensures FitsLine(c, n, text) ==>
              StandsAt(n, text, r) && (n.x + |text| <= c.width ==> r.x == n.x + |text| && r.y == n.y)
    ensures |text| == 1 && IsControl(text[0]) ==> ControlDone(c, n, text[0], r)
  {
    if FitsLine(c, n, text) {
      DrawnStands(c, n, text);
    }
    if |text| == 1 && IsControl(text[0]) {
      ControlIsDone(c, n, text[0]);
    }
  }

  // ------------------------------------------------------------------ class

  class COplConsole {
    const iWidth: nat
    const iHeight: nat
    var iX: int
    var iY: int
    var iRows: seq<string>
    var iScrollLock: bool
    var iWrapLock: bool
    var iLastLineWrap: bool

    function Cfg(): Settings
      reads this
    {
      Settings(iWidth, iHeight, iScrollLock, iWrapLock, iLastLineWrap)
    }

    function View(): Screen
      reads this
    {
      Screen(iX, iY, iRows)
    }

    ghost predicate Valid()
      reads this
    {
      InRange(Cfg(), View())
    }

    constructor (width: nat, height: nat)
      requires width >= 1 && height >= 1
      ensures Valid() && ParkedProperly(Cfg(), View()) && iWidth == width && iHeight == height && iX == 1 && iY == 1
      ensures !iScrollLock && !iWrapLock && !iLastLineWrap && iRows == BlankScreen(Cfg())
    {
      iWidth, iHeight := width, height;
      iX, iY := 1, 1;
      iRows := seq(height, i => Blank(width));
      iScrollLock, iWrapLock, iLastLineWrap := false, false, false;
    }

    /** Changing a lock moves nothing, but may leave the cursor parked where
        the new setting would not have put it; Print copes. */
    method SetLocks(scrollLock: bool, wrapLock: bool, lastLineWrap: bool)
      requires Valid()
      modifies this`iScrollLock, this`iWrapLock, this`iLastLineWrap
      ensures Valid() && Cfg() == Settings(iWidth, iHeight, scrollLock, wrapLock, lastLineWrap)
    {
      iScrollLock, iWrapLock, iLastLineWrap := scrollLock, wrapLock, lastLineWrap;
    }

    method Cls()
      requires Valid()
      modifies this`iX, this`iY, this`iRows
      ensures Valid() && View() == Screen(1, 1, BlankScreen(Cfg()))
      ensures forall i :: 0 <= i < iHeight ==> IsBlank(iRows[i])
    {
      iRows := BlankScreen(Cfg());
      iX, iY := 1, 1;
    }

    /** Outside the screen it is refused and nothing changes. */
    method At(x: int, y: int) returns (ok: bool)
      requires Valid()
      modifies this`iX, this`iY
      ensures Valid() && ok == (1 <= x <= iWidth && 1 <= y <= iHeight)
      ensures View() == if ok then old(View()).(x := x, y := y) else old(View())
    {
      if x < 1 || x > iWidth || y < 1 || y > iHeight {
        return false;
      }
      iX, iY := x, y;
      return true;
    }

    method BackSpace()
      requires Valid()
      modifies this`iX
      ensures Valid() && iX == if old(iX) > 1 then old(iX) - 1 else old(iX)
    {
      if iX > 1 {
        iX := iX - 1;
      }
    }

    method Cr()
      requires Valid()
      modifies this`iX
      ensures Valid() && iX == 1
    {
      iX := 1;
    }

    method Scroll()
      requires Valid() && iY > 1 && iX <= iWidth
      modifies this`iY, this`iRows
      ensures Valid() && MovedUp(old(iRows), iRows)
      ensures View() == old(View()).(y := old(iY) - 1, rows := Scrolled(Cfg(), old(iRows)))
    {
      iRows := Scrolled(Cfg(), iRows);
      iY := iY - 1;
    }

    method Lf()
      requires Valid()
      modifies this`iX, this`iY, this`iRows
      ensures Valid() && View() == Normalise(Cfg(), old(View())).(y := Normalise(Cfg(), old(View())).y + 1)
      decreases if iX > iWidth then 1 else 0, 1
    {
      ScrollIfNeeded();
      iY := iY + 1;
    }

    method ScrollIfNeeded()
      requires Valid()
      modifies this`iX, this`iY, this`iRows
      ensures Valid() && View() == Normalise(Cfg(), old(View())) && iX <= old(iX)
      decreases if iX > iWidth then 1 else 0, 0
    {
      if iX > iWidth {
        Cr();
        Lf();
      }
      if iY > iHeight {
        if iScrollLock {
          iY := iHeight;
          Cr();
        } else {
          Scroll();
        }
      }
    }

    method WrapIfNeeded()
      requires InRange(Cfg(), View().(x := 1)) && 1 <= iX && iY <= iHeight
      modifies this`iX, this`iY, this`iRows
      ensures Valid() && View() == Wrapped(Cfg(), old(View()))
    {
      if iX > iWidth {
        if iWrapLock {
          iX := iWidth;
        } else if !iLastLineWrap && iY == iHeight {
          iX := iWidth + 1;
        } else {
          iX := 1;
          Lf();
        }
      }
    }

    method Tab()
      requires Valid()
      modifies this`iX, this`iY, this`iRows
      ensures Valid() && View() == Control(Cfg(), Normalise(Cfg(), old(View())), '\U{09}')
    {
      ScrollIfNeeded();
      iX := (iX + (KTabStop - 1)) / KTabStop * KTabStop + 1;
      WrapIfNeeded();
    }

    /** Never leaves the rectangle: that is the precondition. */
    method DrawText(s: string)
      requires Valid() && iY <= iHeight && iX + |s| <= iWidth + 1
      modifies this`iRows
      ensures View() == Drawn(Cfg(), old(View()), s).(x := iX)
    {
      iRows := iRows[iY - 1 := Overwrite(iRows[iY - 1], iX - 1, s)];
    }

    method DoPrint(s: string)
      requires Valid() && s != [] && Printable(s) && iX + |s| <= iWidth + 1
      modifies this`iX, this`iY, this`iRows
      ensures Valid() && View() == PrintEach(Cfg(), Normalise(Cfg(), old(View())), s)
      ensures View() == Wrapped(Cfg(), Drawn(Cfg(), Normalise(Cfg(), old(View())), s))
      ensures StandsAt(Normalise(Cfg(), old(View())), s, View())
      ensures old(iX) + |s| <= iWidth ==> iX <= iWidth
    {
      hide PrintEach, Normalise, Overwrite, Printable, BelowScreen;
      ScrollIfNeeded();
      DrawnAtOnce(Cfg(), View(), s);
      DrawnStands(Cfg(), View(), s);
      DrawText(s);
      iX := iX + |s|;
      WrapIfNeeded();
    }

    /** A control character inside Print, with the cursor not yet normalised. */
    method DoControl(text: string, i: nat, ghost v0: Screen)
      requires i < |text| && MidLine(text, i, i, v0) && IsControl(text[i]) && iX <= iWidth
      modifies this`iX, this`iY, this`iRows
      ensures MidLine(text, i + 1, i + 1, v0) && ParkedProperly(Cfg(), View())
      ensures old(iY) <= iHeight ==> View() == Control(Cfg(), old(View()), text[i])
    {
      ghost var before := View();
      hide PrintEach, Step, Normalise;
      HandleControl(text[i]);
      PrintedOne(Cfg(), v0, text, i, before, View());
    }

    method HandleControl(ch: char)
      requires Valid() && IsControl(ch) && iX <= iWidth
      modifies this`iX, this`iY, this`iRows
      ensures Valid() && Same(Cfg(), View(), Step(Cfg(), old(View()), ch))
      ensures ParkedProperly(Cfg(), View())
      ensures old(iY) <= iHeight ==> View() == Control(Cfg(), old(View()), ch)
    {
      match ch {
        case '\U{08}' => BackSpace();
        case '\U{09}' => Tab();
        case '\U{0A}' => Lf();
        case '\U{0C}' => Cls();
        case '\U{0D}' => Cr();
        case _ =>
      }
    }

    /** Prints in chunks: runs of printable characters as long as the line has
        room. Each round of the outer loop consumes a character at least. */
    method Print(text: string)
      requires Valid()
      modifies this`iX, this`iY, this`iRows
      ensures Valid()
      ensures PrintOutcome(Cfg(), old(View()), text, View())
      ensures old(ParkedProperly(Cfg(), View())) ==> ParkedProperly(Cfg(), View())
      ensures var n := Normalise(Cfg(), old(View()));
              && (FitsLine(Cfg(), n, text) ==>
                    StandsAt(n, text, View()) && (n.x + |text| <= iWidth ==> iX == n.x + |text| && iY == n.y))
              && (|text| == 1 && IsControl(text[0]) ==> ControlDone(Cfg(), n, text[0], View()))
    {
      ghost var v0, c := View(), Cfg();
      ghost var n := Normalise(c, v0);
      PrintNothing(text);
      var i := 0;
      while i < |text|
        invariant 0 <= i <= |text| && Cfg() == c && MidLine(text, i, i, v0)
        invariant ParkedProperly(c, v0) ==> ParkedProperly(c, View())
        invariant if i == 0 then View() == v0 else LineShown(c, n, text, i == |text|, View())
      {
        hide *;
        ghost var was, start := View(), i;
        i := PrintLine(text, i, v0);
        if start > 0 {
          MoreThanALine(c, n, text, was, i == |text|, View());
        }
      }
      hide PrintEach, Normalise, LineShown, StandsAt, ControlDone;
      if text != [] {
        LineShownMeans(c, n, text, View());
      }
      assert text[..|text|] == text;
    }

    lemma {:induction false} PrintNothing(text: string)
      requires Valid()
      ensures MidLine(text, 0, 0, View()) && text[0..] == text
    {
      assert text[..0] == [] && text[0..0] == [];
    }

    /** In the middle of a line: everything before `ptr` is on the screen, and
        the printable characters from there up to `i` are not, but will fit. */
    ghost predicate MidLine(text: string, ptr: nat, i: nat, v0: Screen)
      reads this
    {
      && Valid() && InRange(Cfg(), v0) && ptr <= i <= |text|
      && Same(Cfg(), View(), PrintEach(Cfg(), v0, text[..ptr]))
      && Printable(text[ptr..i]) && iX + (i - ptr) <= iWidth + 1
    }

    /** One round of the outer loop. */
    method PrintLine(text: string, start: nat, ghost v0: Screen) returns (i: nat)
      requires start < |text| && MidLine(text, start, start, v0)
      modifies this`iX, this`iY, this`iRows
      ensures start < i <= |text| && MidLine(text, i, i, v0) && ParkedProperly(Cfg(), View())
      ensures LineShown(Cfg(), Normalise(Cfg(), old(View())), text[start..], i == |text|, View())
    {
      assert Valid();
      hide *;
      i := start;
      var ptr, len := i, 0;
      StartLine(text, i, v0);
      ghost var c, n := Cfg(), View();
      NothingShown(c, n, text, start);
      while i < |text| && len < iWidth - iX + 1
        invariant start <= i <= |text| && start <= ptr && ptr + len == i && (i == start ==> iX <= iWidth)
        invariant MidLine(text, ptr, i, v0) && ParkedProperly(Cfg(), View())
        invariant Cfg() == c && PartShown(c, n, text, start, ptr, i, View())
      {
        ptr, len := ReadOne(text, start, ptr, i, n, v0);
        i := i + 1;
      }
      EndLine(text, start, ptr, i, n, v0);
    }

    /** A printable character joins the run; before a control character the run is
        drawn. */
    method ReadOne(text: string, ghost start: nat, ptr: nat, i: nat, ghost n: Screen, ghost v0: Screen) returns (p: nat, len: nat)
      requires i < |text| && MidLine(text, ptr, i, v0) && ParkedProperly(Cfg(), View()) && i - ptr < iWidth - iX + 1
      requires PartShown(Cfg(), n, text, start, ptr, i, View())
      modifies this`iX, this`iY, this`iRows
      ensures ptr <= p <= i + 1 && len == i + 1 - p && MidLine(text, p, i + 1, v0) && ParkedProperly(Cfg(), View())
      ensures Cfg() == old(Cfg()) && PartShown(Cfg(), n, text, start, p, i + 1, View())
    {
      assert ptr <= i;
      hide *;
      ghost var c, before := Cfg(), View();
      if IsControl(text[i]) {
        FlushAndControl(text, ptr, i, v0);
        ControlShown(c, n, text, start, ptr, i, before, View());
        return i + 1, 0;
      }
      Accumulate(text, ptr, i, v0);
      MoreShown(c, n, text, start, ptr, i, View());
      return ptr, i + 1 - ptr;
    }

    /** The line is full, or there is no more text. */
    method EndLine(text: string, ghost start: nat, ptr: nat, i: nat, ghost n: Screen, ghost v0: Screen)
      requires start < i && ptr <= i <= |text| && MidLine(text, ptr, i, v0) && ParkedProperly(Cfg(), View())
      requires PartShown(Cfg(), n, text, start, ptr, i, View()) && (i == |text| || i - ptr >= iWidth - iX + 1)
      modifies this`iX, this`iY, this`iRows
      ensures MidLine(text, i, i, v0) && ParkedProperly(Cfg(), View())
      ensures LineShown(Cfg(), n, text[start..], i == |text|, View())
    {
      ghost var c, before := Cfg(), View();
      assert before.x == iX && c.width == iWidth && (Inside(c, before) ==> InRange(c, before));
      assert before.x + (i - ptr) <= iWidth + 1;
      hide *;
      if ptr < i {
        PrintChunk(text, ptr, i, v0);
      }
      LineEnds(c, n, text, start, ptr, i, before, View());
    }

    method FlushAndControl(text: string, ptr: nat, i: nat, ghost v0: Screen)
      requires i < |text| && MidLine(text, ptr, i, v0) && IsControl(text[i]) && i - ptr < iWidth - iX + 1
      modifies this`iX, this`iY, this`iRows
      ensures MidLine(text, i + 1, i + 1, v0) && ParkedProperly(Cfg(), View())
      ensures ptr == i && Inside(Cfg(), old(View())) ==> View() == Control(Cfg(), old(View()), text[i])
      ensures Cfg() == old(Cfg())
    {
      assert ptr <= i && Valid();
      hide *;
      if i - ptr != 0 {
        PrintChunk(text, ptr, i, v0);
      }
      DoControl(text, i, v0);
    }

    lemma {:induction false} Accumulate(text: string, ptr: nat, i: nat, v0: Screen)
      requires MidLine(text, ptr, i, v0) && i < |text| && !IsControl(text[i]) && i - ptr < iWidth - iX + 1
      ensures MidLine(text, ptr, i + 1, v0)
    {
      PrintableMore(text, ptr, i);
    }

    method StartLine(text: string, i: nat, ghost v0: Screen)
      requires i < |text| && MidLine(text, i, i, v0)
      modifies this`iX, this`iY, this`iRows
      ensures MidLine(text, i, i, v0) && ParkedProperly(Cfg(), View()) && iX <= iWidth
      ensures View() == Normalise(Cfg(), old(View())) && iY <= iHeight
    {
      NormaliseTwice(Cfg(), View());
      hide PrintEach, Normalise;
      ScrollIfNeeded();
    }

    method PrintChunk(text: string, ptr: nat, i: nat, ghost v0: Screen)
      requires ptr < i && MidLine(text, ptr, i, v0)
      modifies this`iX, this`iY, this`iRows
      ensures MidLine(text, i, i, v0) && ParkedProperly(Cfg(), View())
      ensures old(iX) + (i - ptr) <= iWidth ==> iX <= iWidth
      ensures Inside(Cfg(), old(View())) && old(iX) + (i - ptr) <= iWidth + 1 ==>
                View() == Wrapped(Cfg(), Drawn(Cfg(), old(View()), text[ptr..i]))
      ensures Cfg() == old(Cfg())
    {
      PrintedChunk(Cfg(), v0, text, ptr, i, View());
      hide Same, PrintEach;
      DoPrint(text[ptr..i]);
    }
  }
}
