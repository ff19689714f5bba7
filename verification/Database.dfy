/** COplDbManager over one open row set: the cached record number, the seek that
    picks the cheaper direction, and the two pairs of update modes. */
module Database {
  import opened Wrappers

  type Fields = map<nat, int>

  /** A row, and the identity that a bookmark remembers. */
  datatype Row = Row(id: nat, fields: Fields)

  datatype Edit = Reading | Inserting(buffer: Fields) | Updating(buffer: Fields)

  function RemoveRow(rows: seq<Row>, i: nat): (r: seq<Row>)
    requires i < |rows|
    ensures |r| == |rows| - 1
  {
    rows[..i] + rows[i + 1..]
  }

  lemma {:induction false} OneRowLess(rows: seq<Row>, i: nat, k: nat)
    requires i < |rows| && k < |rows| - 1
    ensures RemoveRow(rows, i)[k] == if k < i then rows[k] else rows[k + 1]
  {
  }

  predicate Distinct(rows: seq<Row>, next: nat) {
    && (forall i :: 0 <= i < |rows| ==> rows[i].id < next)
    && (forall i, j :: 0 <= i < j < |rows| ==> rows[i].id != rows[j].id)
  }

  function Clamp(x: int, low: int, high: int): int {
    if x < low then low else if x > high then high else x
  }

  lemma {:induction false} ClampIsNearest(x: int, low: int, high: int)
    requires low <= high
    ensures var r := Clamp(x, low, high); low <= r <= high && forall y :: low <= y <= high ==> Distance(x, r) <= Distance(x, y)
  {
  }

  function Distance(x: int, y: int): int { if x < y then y - x else x - y }

  function ToInt16(x: int): (r: int)
    ensures -0x8000 <= r < 0x8000 && (r - x) % 0x10000 == 0
  {
    (x + 0x8000) % 0x10000 - 0x8000
  }

  // ------------------------------------------------------------- the database

  /** What the runtime relies on from the database: a cursor between 0, before
      the first row, and n+1, after the last; new rows go to the end and become
      current; cancelling an edit leaves the cursor where it was; deleting the
      current row leaves a gap in front of the next one. */
  class RDbRowSet {
    var rows: seq<Row>
    var pos: int
    var gap: bool
    var edit: Edit
    var nextId: nat

    ghost predicate Valid()
      reads this
    {
      Distinct(rows, nextId) && 0 <= pos <= |rows| + 1 && (gap ==> 1 <= pos)
    }

    constructor ()
      ensures Valid() && rows == [] && pos == 1 && !gap && edit == Reading
    {
      rows, pos, gap, edit, nextId := [], 1, false, Reading, 0;
    }

    predicate AtRow()
      reads this
    {
      !gap && 1 <= pos <= |rows|
    }

    predicate AtEnd()
      reads this
    {
      !gap && pos == |rows| + 1
    }

    predicate AtBeginning()
      reads this
    {
      !gap && pos == 0
    }

    method FirstL()
      requires Valid()
      modifies this`pos, this`gap
      ensures Valid() && pos == 1 && !gap
    {
      pos, gap := 1, false;
    }

    method LastL()
      requires Valid()
      modifies this`pos, this`gap
      ensures Valid() && pos == |rows| && !gap
    {
      pos, gap := |rows|, false;
    }

    method NextL()
      requires Valid()
      modifies this`pos, this`gap
      ensures Valid() && !gap
      ensures pos == if old(gap) || old(pos) > |rows| then old(pos) else old(pos) + 1
    {
      if !gap && pos <= |rows| {
        pos := pos + 1;
      }
      gap := false;
    }

    method PreviousL()
      requires Valid()
      modifies this`pos, this`gap
      ensures Valid() && !gap
      ensures pos == if old(pos) > 0 then old(pos) - 1 else 0
    {
      if pos > 0 {
        pos := pos - 1;
      }
      gap := false;
    }

    /** Starts a new row, blank or a copy of the current one. */
    method InsertL(copy: bool)
      requires Valid() && (copy ==> AtRow())
      modifies this`edit
      ensures Valid() && edit == Inserting(if copy then rows[pos - 1].fields else map[])
    {
      edit := Inserting(if copy then rows[pos - 1].fields else map[]);
    }

    method UpdateL()
      requires Valid() && AtRow()
      modifies this`edit
      ensures Valid() && edit == Updating(rows[pos - 1].fields)
    {
      edit := Updating(rows[pos - 1].fields);
    }

    method SetColL(column: nat, value: int)
      requires Valid() && edit != Reading
      modifies this`edit
      ensures Valid()
      ensures edit == old(edit).(buffer := old(edit).buffer[column := value])
    {
      edit := edit.(buffer := edit.buffer[column := value]);
    }

    method Cancel()
      requires Valid()
      modifies this`edit
      ensures Valid() && edit == Reading
    {
      edit := Reading;
    }

    method PutL(fails: bool) returns (ok: bool)
      requires Valid() && edit != Reading && (edit.Updating? ==> AtRow())
      modifies this
      ensures Valid() && ok == !fails
      ensures !ok ==> rows == old(rows) && pos == old(pos) && gap == old(gap) && edit == old(edit) && nextId == old(nextId)
      ensures ok ==> edit == Reading && !gap
      ensures ok && old(edit).Inserting? ==>
        && rows == old(rows) + [Row(old(nextId), old(edit).buffer)]
        && pos == |rows| && nextId == old(nextId) + 1
      ensures ok && old(edit).Updating? ==>
        && rows == old(rows)[old(pos) - 1 := old(rows)[old(pos) - 1].(fields := old(edit).buffer)]
        && pos == old(pos) && nextId == old(nextId)
    {
      ok := !fails;
      if ok {
        if edit.Inserting? {
          rows := rows + [Row(nextId, edit.buffer)];
          nextId := nextId + 1;
          pos, gap := |rows|, false;
        } else {
          rows := rows[pos - 1 := rows[pos - 1].(fields := edit.buffer)];
        }
        edit := Reading;
      }
    }

    method DeleteL(fails: bool) returns (ok: bool)
      requires Valid() && AtRow()
      modifies this`rows, this`gap
      ensures Valid() && ok == !fails
      ensures rows == (if ok then RemoveRow(old(rows), pos - 1) else old(rows)) && gap == ok
    {
      ok := !fails;
      if ok {
        rows, gap := RemoveRow(rows, pos - 1), true;
      }
    }

    method GotoL(id: nat) returns (ok: bool)
      requires Valid()
      modifies this`pos, this`gap
      ensures Valid()
      ensures ok <==> exists i :: 0 <= i < |rows| && rows[i].id == id
      ensures ok ==> AtRow() && rows[pos - 1].id == id
      ensures !ok ==> pos == old(pos) && gap == old(gap)
    {
      if i :| 0 <= i < |rows| && rows[i].id == id {
        pos, gap := i + 1, false;
        return true;
      }
      return false;
    }
  }

  // --------------------------------------------------------------- the keywords

  datatype Error = Eof | IncompatibleUpdateMode | Failed

  /** Where a bookmark points, or -1. */
  function IndexOf(rows: seq<Row>, id: nat): (r: int)
    ensures -1 <= r < |rows|
    ensures r >= 0 ==> rows[r].id == id
    ensures r == -1 ==> forall i :: 0 <= i < |rows| ==> rows[i].id != id
  {
    if rows == [] then -1
    else if rows[|rows| - 1].id == id then |rows| - 1
    else IndexOf(rows[..|rows| - 1], id)
  }

  /** What UPDATE should do to the current row `i`: it goes, and the edited row
      comes at the end. */
  function Moved(rows: seq<Row>, i: nat, edited: Row): seq<Row>
    requires i < |rows|
  {
    RemoveRow(rows, i) + [edited]
  }

  /** Where UPDATE leaves the cursor when it has stored the edited row and then
      cannot take the old one away: on the row the bookmark found, if it found
      one, and otherwise on the row just stored. */
  function Stranded(rows: seq<Row>, bookmark: Option<nat>): (pos: nat)
    ensures 1 <= pos <= |rows| + 1
    ensures pos <= |rows| <==> bookmark.Some? && exists i :: 0 <= i < |rows| && rows[i].id == bookmark.value
  {
    if bookmark.Some? && IndexOf(rows, bookmark.value) >= 0 then IndexOf(rows, bookmark.value) + 1 else |rows| + 1
  }

  /** Which row went is visible in the result: UPDATE moved the current row
      exactly if its bookmark pointed there. */
  lemma {:induction false} MovedTellsWhich(rows: seq<Row>, next: nat, i: nat, j: nat, edited: Row)
    requires Distinct(rows, next) && i < |rows| && j < |rows|
    ensures Moved(rows, i, edited) == Moved(rows, j, edited) <==> i == j
  {
    if i < j {
      assert Moved(rows, i, edited)[i] == rows[i + 1] && Moved(rows, j, edited)[i] == rows[i];
    } else if j < i {
      assert Moved(rows, i, edited)[j] == rows[j] && Moved(rows, j, edited)[j] == rows[j + 1];
    }
  }

  lemma {:induction false} RemoveRowBeforeLast(rows: seq<Row>, i: nat, e: Row)
    requires i < |rows|
    ensures RemoveRow(rows + [e], i) == RemoveRow(rows, i) + [e] == Moved(rows, i, e)
  {
    assert (rows + [e])[..i] == rows[..i] && (rows + [e])[i + 1..] == rows[i + 1..] + [e];
    ConcatAssoc(rows[..i], rows[i + 1..], [e]);
  }

  lemma {:induction false} IndexOfUnique(rows: seq<Row>, next: nat, i: nat)
    requires Distinct(rows, next) && i < |rows|
    ensures IndexOf(rows, rows[i].id) == i
  {
  }

  /** A bookmark made before a row was added finds the same row afterwards. */
  lemma {:induction false} Bookmarked(rows: seq<Row>, next: nat, longer: seq<Row>, id: nat, k: nat)
    requires Distinct(rows, next) && id < next && k < |longer| == |rows| + 1
    requires longer[..|rows|] == rows && longer[|rows|].id == next
    ensures longer[k].id == id <==> k == IndexOf(rows, id)
  {
    if k < |rows| {
      assert longer[k] == longer[..|rows|][k];
    }
  }

  /** The row with this identity is row `i`, if there is one. */
  predicate FoundAt(rows: seq<Row>, id: nat, i: int) {
    forall k :: 0 <= k < |rows| ==> (rows[k].id == id <==> k == i)
  }

  lemma {:induction false} BookmarkKept(rows: seq<Row>, next: nat, longer: seq<Row>, id: nat)
    requires Distinct(rows, next) && id < next && |longer| == |rows| + 1
    requires longer[..|rows|] == rows && longer[|rows|].id == next
    ensures FoundAt(longer, id, IndexOf(rows, id))
  {
    hide Distinct, IndexOf;
    forall k | 0 <= k < |longer|
      ensures longer[k].id == id <==> k == IndexOf(rows, id)
    {
      Bookmarked(rows, next, longer, id, k);
    }
  }

  /** The rows with one more. */
  function WithRow(rows: seq<Row>, row: Row): (r: seq<Row>)
    ensures |r| == |rows| + 1
  {
    rows + [row]
  }

  /** What UPDATE needs to know of the rows after it has stored the edited one. */
  lemma {:induction false} Stored(rows: seq<Row>, next: nat, e: Row, bookmark: Option<nat>)
    requires Distinct(rows, next) && e.id == next && (bookmark.Some? ==> bookmark.value < next)
    ensures bookmark.Some? ==>
      var i := IndexOf(rows, bookmark.value);
      && FoundAt(WithRow(rows, e), bookmark.value, i)
      && (i >= 0 ==> RemoveRow(WithRow(rows, e), i) == Moved(rows, i, e))
  {
    hide Distinct, IndexOf, FoundAt, RemoveRow, Moved;
    if bookmark.Some? {
      var i := IndexOf(rows, bookmark.value);
      BookmarkKept(rows, next, WithRow(rows, e), bookmark.value);
      if i >= 0 {
        RemoveRowBeforeLast(rows, i, e);
      }
    }
  }

  datatype From = Here | EndOfFile | FirstRow

  datatype Seek = Seek(from: From, loopTo: int, forward: bool)

  /** The choice POSITION makes: how to get from row `currPos` to `target`. */
  function PlanSeek(currPos: int, count: nat, target: int): Seek {
    var steps := target - currPos;
    if steps > 0 then
      if (count + 1 - currPos) / 2 > steps then Seek(Here, steps, true)
      else Seek(EndOfFile, count + 1 - currPos - steps, false)
    else if steps < 0 then
      if currPos / 2 > -steps then Seek(Here, -steps, false)
      else Seek(FirstRow, target - 1, true)
    else Seek(Here, 0, true)
  }

  /** Where a number of steps from row `start` of `count` ends. */
  function Walked(start: int, loopTo: int, forward: bool, count: nat): int {
    if loopTo <= 0 then start
    else Clamp(if forward then start + loopTo else start - loopTo, 0, count + 1)
  }

  /** Where carrying out the choice puts a cursor that is on row `pos`. */
  function Landing(s: Seek, pos: int, count: nat): int {
    var start := match s.from case Here => pos case EndOfFile => count + 1 case FirstRow => 1;
    Walked(start, s.loopTo, s.forward, count)
  }

  /** POSITION plans from a record number cut down to 16 bits, and that number
      need not be where the cursor is. It gets there all the same unless it chose
      to step from where it is, and even then if the end of the file stops it. */
  predicate Lands(currPos: int, pos: int, count: nat, target: int) {
    !StepsFromHere(currPos, count, target) || currPos == pos || (target == count + 1 && currPos < pos)
  }

  /** The target is nearer than half way to the end it lies towards, as far as the
      record number says. */
  predicate StepsFromHere(currPos: int, count: nat, target: int) {
    if target > currPos then target - currPos < (count + 1 - currPos) / 2 else currPos - target < currPos / 2 || target == currPos
  }

  lemma {:induction false} PlanSeekLandsExactly(currPos: int, pos: int, count: nat, target: int)
    requires 1 <= pos <= count + 1 && 1 <= target <= count + 1
    ensures Landing(PlanSeek(currPos, count, target), pos, count) == target <==> Lands(currPos, pos, count, target)
  {
  }

  /** From the right number it takes at most half the steps to the end it is
      heading for, rounded up. */
  lemma {:induction false} PlanSeekIsShort(currPos: int, count: nat, target: int)
    requires 1 <= currPos <= count + 1 && 1 <= target <= count + 1
    ensures var moves := PlanSeek(currPos, count, target).loopTo;
            && moves >= 0
            && (target >= currPos ==> moves <= (count + 1 - currPos + 1) / 2)
            && (target <= currPos ==> moves <= (currPos + 1) / 2)
  {
  }

  class COplDbManager {
    const iDbRowSet: RDbRowSet
    var iPos: int
    var iPosBeforeInsert: Option<nat>
    var iRowsWereAbsent: bool
    var iModifyOrInsert: bool
    var iAppendOrUpdate: bool
    var iInsertMode: bool

    /** The cursor is on a row or at the end; never in both modes, and in one of
        them exactly while a row is being edited. */
    ghost predicate Valid()
      reads this, iDbRowSet
    {
      && iDbRowSet.Valid() && BookmarkOK() && !iDbRowSet.gap && 1 <= iDbRowSet.pos
      && !(iModifyOrInsert && iAppendOrUpdate)
      && (iModifyOrInsert || iAppendOrUpdate <==> iDbRowSet.edit != Reading)
      && (iAppendOrUpdate ==> iDbRowSet.edit.Inserting?)
      && (iModifyOrInsert && iDbRowSet.edit.Updating? ==> iDbRowSet.AtRow())
      && (iModifyOrInsert && iDbRowSet.edit.Inserting? ==> iInsertMode)
      && (iAppendOrUpdate && iDbRowSet.rows == [] ==> iRowsWereAbsent)
    }

    /** The bookmark names a row that exists or existed. */
    ghost predicate BookmarkOK()
      reads this, iDbRowSet
    {
      iPosBeforeInsert.Some? ==> iPosBeforeInsert.value < iDbRowSet.nextId
    }

    /** Nothing is being edited; the cursor may be anywhere. */
    ghost predicate Idle()
      reads this, iDbRowSet
    {
      iDbRowSet.Valid() && BookmarkOK() && iDbRowSet.edit == Reading && !iModifyOrInsert && !iAppendOrUpdate
    }

    /** The cached record number is where the cursor is. The keywords keep this,
        except that PUT and UPDATE can break it, and they work without it. */
    ghost predicate PosOK()
      reads this, iDbRowSet
    {
      iPos == iDbRowSet.pos
    }

    /** PUT will take an insertion for an insertion and nothing else for one. */
    ghost predicate InsertModeOK()
      reads this, iDbRowSet
    {
      iInsertMode ==> iModifyOrInsert && iDbRowSet.edit.Inserting?
    }

    constructor (aRowSet: RDbRowSet)
      requires aRowSet.Valid() && aRowSet.pos == 1 && !aRowSet.gap && aRowSet.edit == Reading
      ensures iDbRowSet == aRowSet && Valid() && PosOK() && InsertModeOK() && !iRowsWereAbsent
    {
      iDbRowSet := aRowSet;
      iPos, iPosBeforeInsert, iRowsWereAbsent := 1, None, false;
      iModifyOrInsert, iAppendOrUpdate, iInsertMode := false, false, false;
    }

    // ------------------------------------------------------------- navigation

    method CancelIfUpdate()
      requires Valid()
      modifies this, iDbRowSet`edit
      ensures Valid() && !iAppendOrUpdate && !iModifyOrInsert
      ensures iPos == old(iPos) && iInsertMode == old(iInsertMode) && iPosBeforeInsert == old(iPosBeforeInsert)
      ensures iRowsWereAbsent == (old(iRowsWereAbsent) && !old(iAppendOrUpdate))
    {
      if iAppendOrUpdate {
        iDbRowSet.Cancel();
        iAppendOrUpdate := false;
        iRowsWereAbsent := false;
      }
      if iModifyOrInsert {
        iDbRowSet.Cancel();
        iModifyOrInsert := false;
      }
    }

    method BackL()
      requires Valid() && iDbRowSet.edit == Reading
      modifies this`iPos, iDbRowSet`pos, iDbRowSet`gap
      ensures Valid() && iDbRowSet.pos == if old(iDbRowSet.pos) > 1 then old(iDbRowSet.pos) - 1 else 1
      ensures iPos == if old(iDbRowSet.pos) > 1 then old(iPos) - 1 else 1
    {
      if !iDbRowSet.AtBeginning() {
        iDbRowSet.PreviousL();
        iPos := iPos - 1;
      }
      if iDbRowSet.AtBeginning() {
        iDbRowSet.NextL();
        iPos := 1;
      }
    }

    method FirstL()
      requires Idle()
      modifies this`iPos, iDbRowSet`pos, iDbRowSet`gap
      ensures Valid() && PosOK() && iPos == 1
    {
      iDbRowSet.FirstL();
      iPos := 1;
    }

    method NextL()
      requires Valid() && iDbRowSet.edit == Reading
      modifies this`iPos, iDbRowSet`pos, iDbRowSet`gap
      ensures Valid() && iPos - old(iPos) == iDbRowSet.pos - old(iDbRowSet.pos)
      ensures iDbRowSet.pos == if old(iDbRowSet.AtRow()) then old(iDbRowSet.pos) + 1 else old(iDbRowSet.pos)
    {
      if !iDbRowSet.AtEnd() {
        iDbRowSet.NextL();
        iPos := iPos + 1;
      }
    }

    method LastL()
      requires Idle()
      modifies this`iPos, iDbRowSet`pos, iDbRowSet`gap
      ensures Valid() && PosOK() && iPos == if iDbRowSet.rows == [] then 1 else |iDbRowSet.rows|
    {
      iDbRowSet.LastL();
      iPos := |iDbRowSet.rows|;
      if iDbRowSet.AtBeginning() {
        iDbRowSet.NextL();
        iPos := 1;
      }
    }

    method Erase(fails: bool) returns (error: Option<Error>)
      requires Valid() && iDbRowSet.edit == Reading
      modifies iDbRowSet
      ensures Valid() && iDbRowSet.pos == old(iDbRowSet.pos)
      ensures error == if !old(iDbRowSet.AtRow()) then Some(Eof) else if fails then Some(Failed) else None
      ensures iDbRowSet.rows ==
        if error.None? then RemoveRow(old(iDbRowSet.rows), iDbRowSet.pos - 1) else old(iDbRowSet.rows)
    {
      if iDbRowSet.AtRow() {
        var ok := iDbRowSet.DeleteL(fails);
        if !ok {
          return Some(Failed);
        }
        iDbRowSet.NextL();
        return None;
      }
      return Some(Eof);
    }

    /** FIND forwards from the current row. The database answers how many rows
        further the match is, if there is one. */
    method FindString(match_: Option<nat>) returns (found: int)
      requires Valid() && iDbRowSet.edit == Reading
      requires match_.Some? ==> iDbRowSet.AtRow() && iDbRowSet.pos + match_.value <= |iDbRowSet.rows|
      modifies this`iPos, iDbRowSet`pos
      ensures Valid()
      ensures match_.None? ==> found == 0 && iDbRowSet.AtEnd() && PosOK()
      ensures match_.Some? ==>
        && iDbRowSet.pos == old(iDbRowSet.pos) + match_.value
        && iPos == old(iPos) + match_.value && found == ToInt16(iPos)
    {
      if match_.None? {
        iDbRowSet.pos := |iDbRowSet.rows| + 1;
        iPos := |iDbRowSet.rows| + 1;
        return 0;
      }
      iDbRowSet.pos := iDbRowSet.pos + match_.value;
      iPos := iPos + match_.value;
      return ToInt16(iPos);
    }

    /** FINDFIELD: from the current row or from an end, in either direction. The
        database answers how many rows away from there the match is; an
        unsuccessful search backwards ends on the first row. */
    method FindField(forward: bool, fromAnEnd: bool, match_: Option<nat>) returns (found: int)
      requires Valid() && iDbRowSet.edit == Reading
      requires match_.Some? ==>
        if forward then (if fromAnEnd then 1 else iDbRowSet.pos) + match_.value <= |iDbRowSet.rows|
        else (if fromAnEnd || !iDbRowSet.AtRow() then |iDbRowSet.rows| else iDbRowSet.pos) - match_.value >= 1
      modifies this`iPos, iDbRowSet`pos, iDbRowSet`gap
      ensures Valid()
      ensures match_.None? ==> found == 0 && PosOK() && if forward then iDbRowSet.AtEnd() else iPos == 1
      ensures match_.Some? ==> found == ToInt16(iPos)
      ensures match_.Some? && forward ==>
        iDbRowSet.pos == (if fromAnEnd then 1 else old(iDbRowSet.pos)) + match_.value
      ensures match_.Some? && !forward ==>
        iDbRowSet.pos == (if fromAnEnd || !old(iDbRowSet.AtRow()) then |iDbRowSet.rows| else old(iDbRowSet.pos)) - match_.value
      ensures match_.Some? && (fromAnEnd || (!forward && !old(iDbRowSet.AtRow()))) ==> PosOK()
      ensures match_.Some? && !fromAnEnd && (forward || old(iDbRowSet.AtRow())) ==>
        iPos - old(iPos) == iDbRowSet.pos - old(iDbRowSet.pos)
    {
      hide Distinct;
      if forward {
        if fromAnEnd {
          FirstL();
        }
        if !iDbRowSet.AtRow() {
          iPos := |iDbRowSet.rows| + 1;
          return 0;
        }
      } else if fromAnEnd || !iDbRowSet.AtRow() {
        LastL();
      }
      if match_.None? {
        if forward {
          iDbRowSet.pos := |iDbRowSet.rows| + 1;
          iPos := |iDbRowSet.rows| + 1;
        } else {
          FirstL();
        }
        return 0;
      }
      var iterations: int := match_.value;
      if !forward {
        iterations := -iterations;
      }
      iDbRowSet.pos := iDbRowSet.pos + iterations;
      iPos := iPos + iterations;
      return ToInt16(iPos);
    }

    /** POSITION: steps from where it is, or from whichever end is nearer. */
    method PositionL(aPos: nat) returns (ghost moves: int)
      requires Valid() && iDbRowSet.edit == Reading
      modifies this`iPos, iDbRowSet`pos, iDbRowSet`gap
      ensures iPos == Clamp(aPos, 1, |iDbRowSet.rows| + 1)
      ensures var n := |iDbRowSet.rows|;
              iDbRowSet.pos == Landing(PlanSeek(ToInt16(old(iPos)), n, iPos), old(iDbRowSet.pos), n)
      ensures Valid() <==> iDbRowSet.pos >= 1
      ensures PosOK() <==> Lands(ToInt16(old(iPos)), old(iDbRowSet.pos), |iDbRowSet.rows|, iPos)
      ensures old(PosOK()) && old(iPos) < 0x8000 ==>
        && PosOK()
        && (iPos >= old(iPos) ==> moves <= (|iDbRowSet.rows| + 1 - old(iPos) + 1) / 2)
        && (iPos <= old(iPos) ==> moves <= (old(iPos) + 1) / 2)
    {
      hide Distinct, PlanSeek, StepsFromHere, ToInt16;
      var currPos := ToInt16(iPos);
      var count := |iDbRowSet.rows|;
      var target := Clamp(aPos, 1, count + 1);
      var seek := PlanSeek(currPos, count, target);
      PlanSeekLandsExactly(currPos, iDbRowSet.pos, count, target);
      if 1 <= currPos <= count + 1 {
        PlanSeekIsShort(currPos, count, target);
      }
      GoToStart(seek.from);
      Walk(seek.loopTo, seek.forward);
      iPos := target;
      moves := seek.loopTo;
    }

    method GoToStart(from: From)
      requires iDbRowSet.Valid() && !iDbRowSet.gap
      modifies iDbRowSet`pos, iDbRowSet`gap
      ensures iDbRowSet.Valid() && !iDbRowSet.gap
      ensures iDbRowSet.pos == match from
        case Here => old(iDbRowSet.pos)
        case EndOfFile => |iDbRowSet.rows| + 1
        case FirstRow => 1
    {
      hide Distinct;
      match from {
        case Here =>
        case EndOfFile =>
          iDbRowSet.LastL();
          iDbRowSet.NextL();
        case FirstRow =>
          iDbRowSet.FirstL();
      }
    }

    /** A number of steps in one direction; the ends of the file stop them. */
    method Walk(loopTo: int, forward: bool)
      requires iDbRowSet.Valid() && !iDbRowSet.gap
      modifies iDbRowSet`pos, iDbRowSet`gap
      ensures iDbRowSet.Valid() && !iDbRowSet.gap
      ensures iDbRowSet.pos == Walked(old(iDbRowSet.pos), loopTo, forward, |iDbRowSet.rows|)
    {
      hide Distinct;
      var pp := 0;
      while pp < loopTo
        invariant 0 <= pp && (loopTo >= 0 ==> pp <= loopTo) && (loopTo < 0 ==> pp == 0)
        invariant iDbRowSet.Valid() && !iDbRowSet.gap
        invariant iDbRowSet.pos == Walked(old(iDbRowSet.pos), pp, forward, |iDbRowSet.rows|)
      {
        if forward {
          iDbRowSet.NextL();
        } else {
          iDbRowSet.PreviousL();
        }
        pp := pp + 1;
      }
    }

    // ---------------------------------------------------------------- editing

    /** Assigning to a field outside MODIFY and INSERT: starts an edit of a copy
        of the current row, or of a blank row at the end of the file. */
    method PrepareForUpdate()
      requires Valid() && !iModifyOrInsert
      modifies this`iRowsWereAbsent, this`iPosBeforeInsert, this`iAppendOrUpdate, iDbRowSet`edit
      ensures Valid() && iAppendOrUpdate
      ensures old(iAppendOrUpdate) ==>
        && iDbRowSet.edit == old(iDbRowSet.edit) && iPosBeforeInsert == old(iPosBeforeInsert)
        && iRowsWereAbsent == old(iRowsWereAbsent)
      ensures !old(iAppendOrUpdate) ==>
        && iRowsWereAbsent == (old(iRowsWereAbsent) || iDbRowSet.rows == [])
        && iPosBeforeInsert == (if iDbRowSet.AtRow() then Some(iDbRowSet.rows[iDbRowSet.pos - 1].id) else old(iPosBeforeInsert))
        && iDbRowSet.edit == Inserting(if iDbRowSet.AtRow() then iDbRowSet.rows[iDbRowSet.pos - 1].fields else map[])
    {
      if !iAppendOrUpdate {
        if iDbRowSet.rows == [] {
          iRowsWereAbsent := true;
        }
        if iDbRowSet.AtRow() {
          iPosBeforeInsert := Some(iDbRowSet.rows[iDbRowSet.pos - 1].id);
          iDbRowSet.InsertL(true);
        } else {
          iDbRowSet.InsertL(false);
        }
        iAppendOrUpdate := true;
      }
    }

    /** A field assignment. */
    method Assign(column: nat, value: int)
      requires Valid()
      modifies this`iRowsWereAbsent, this`iPosBeforeInsert, this`iAppendOrUpdate, iDbRowSet`edit
      ensures Valid() && iDbRowSet.edit != Reading
      ensures column in iDbRowSet.edit.buffer && iDbRowSet.edit.buffer[column] == value
      ensures iAppendOrUpdate == !iModifyOrInsert
      ensures iModifyOrInsert || old(iAppendOrUpdate) ==>
        && iDbRowSet.edit.buffer == old(iDbRowSet.edit).buffer[column := value]
        && iPosBeforeInsert == old(iPosBeforeInsert)
      ensures !iModifyOrInsert && !old(iAppendOrUpdate) ==>
        && iDbRowSet.edit.buffer
           == (if iDbRowSet.AtRow() then iDbRowSet.rows[iDbRowSet.pos - 1].fields else map[])[column := value]
        && iPosBeforeInsert
           == (if iDbRowSet.AtRow() then Some(iDbRowSet.rows[iDbRowSet.pos - 1].id) else old(iPosBeforeInsert))
      ensures !iModifyOrInsert && !old(iAppendOrUpdate) ==>
        iRowsWereAbsent == (old(iRowsWereAbsent) || iDbRowSet.rows == [])
    {
      if !iModifyOrInsert {
        PrepareForUpdate();
      }
      iDbRowSet.SetColL(column, value);
    }

    /** CANCEL, and what every failed PUT does: the rows and the position stay. */
    method Cancel()
      requires Valid()
      modifies this`iAppendOrUpdate, this`iModifyOrInsert, this`iInsertMode, iDbRowSet`edit
      ensures Valid() && !iAppendOrUpdate && !iModifyOrInsert && InsertModeOK()
    {
      iDbRowSet.Cancel();
      iAppendOrUpdate, iModifyOrInsert, iInsertMode := false, false, false;
    }

    method SafelyPutL(fails: bool) returns (ok: bool)
      requires iDbRowSet.Valid() && iDbRowSet.edit != Reading && (iDbRowSet.edit.Updating? ==> iDbRowSet.AtRow())
      modifies this`iAppendOrUpdate, this`iModifyOrInsert, this`iInsertMode, iDbRowSet
      ensures iDbRowSet.Valid() && ok == !fails && iDbRowSet.edit == Reading
      ensures !ok ==>
        && iDbRowSet.rows == old(iDbRowSet.rows) && iDbRowSet.pos == old(iDbRowSet.pos) && iDbRowSet.gap == old(iDbRowSet.gap)
        && iDbRowSet.nextId == old(iDbRowSet.nextId) && !iAppendOrUpdate && !iModifyOrInsert && !iInsertMode
      ensures ok ==> iAppendOrUpdate == old(iAppendOrUpdate) && iModifyOrInsert == old(iModifyOrInsert)
      ensures ok ==> iInsertMode == old(iInsertMode) && !iDbRowSet.gap
      ensures ok && old(iDbRowSet.edit).Inserting? ==>
        && iDbRowSet.rows == WithRow(old(iDbRowSet.rows), Row(old(iDbRowSet.nextId), old(iDbRowSet.edit).buffer))
        && iDbRowSet.pos == |iDbRowSet.rows| && iDbRowSet.nextId == old(iDbRowSet.nextId) + 1
      ensures ok && old(iDbRowSet.edit).Updating? ==>
        && iDbRowSet.rows == old(iDbRowSet.rows)
             [old(iDbRowSet.pos) - 1 := old(iDbRowSet.rows[iDbRowSet.pos - 1]).(fields := old(iDbRowSet.edit).buffer)]
        && iDbRowSet.pos == old(iDbRowSet.pos) && iDbRowSet.nextId == old(iDbRowSet.nextId)
    {
      ok := iDbRowSet.PutL(fails);
      if !ok {
        iDbRowSet.Cancel();
        iAppendOrUpdate, iModifyOrInsert, iInsertMode := false, false, false;
      }
    }

    /** APPEND: the edit, or a copy of the current row, or at the end of the file
        a blank row, becomes the last row and the current one. If storing a blank
        row fails, the database is left editing without either mode saying so. */
    method AppendL(fails: bool) returns (error: Option<Error>)
      requires Valid()
      modifies this, iDbRowSet
      ensures error == if old(iModifyOrInsert) then Some(IncompatibleUpdateMode) else if fails then Some(Failed) else None
      ensures iPosBeforeInsert == (if !old(iModifyOrInsert || iAppendOrUpdate || iDbRowSet.AtEnd())
                                   then Some(old(iDbRowSet.rows[iDbRowSet.pos - 1].id)) else old(iPosBeforeInsert))
      ensures Valid() <==> !(old(!iAppendOrUpdate && !iModifyOrInsert && iDbRowSet.AtEnd()) && fails)
      ensures error.Some? ==>
        iDbRowSet.rows == old(iDbRowSet.rows) && iPos == old(iPos) && iDbRowSet.pos == old(iDbRowSet.pos)
      ensures error.None? ==>
        && PosOK() && iPos == |iDbRowSet.rows| && !iAppendOrUpdate && !iModifyOrInsert
        && iDbRowSet.rows == old(iDbRowSet.rows) + [Row(old(iDbRowSet.nextId),
             if old(iAppendOrUpdate) then old(iDbRowSet.edit).buffer
             else if old(iDbRowSet.AtEnd()) then map[] else old(iDbRowSet.rows[iDbRowSet.pos - 1].fields))]
      ensures iRowsWereAbsent == (old(iRowsWereAbsent) && !(old(iAppendOrUpdate) && !old(iModifyOrInsert)))
    {
      assert iDbRowSet.AtRow() ==> iDbRowSet.rows[iDbRowSet.pos - 1].id < iDbRowSet.nextId;
      hide Distinct;
      if iModifyOrInsert {
        return Some(IncompatibleUpdateMode);
      }
      if iAppendOrUpdate {
        iAppendOrUpdate, iRowsWereAbsent := false, false;
      } else if !iDbRowSet.AtEnd() {
        iPosBeforeInsert := Some(iDbRowSet.rows[iDbRowSet.pos - 1].id);
        iDbRowSet.InsertL(true);
      } else {
        iDbRowSet.InsertL(false);
        var stored := iDbRowSet.PutL(fails);
        if !stored {
          return Some(Failed);
        }
        iPos := |iDbRowSet.rows|;
        return None;
      }
      var ok := SafelyPutL(fails);
      if !ok {
        return Some(Failed);
      }
      iPos := |iDbRowSet.rows|;
      return None;
    }

    /** The common part of both forms of UPDATE: store the edit, go back to the
        row the bookmark remembers, delete it, go to the end. */
    method ReplaceBookmarked(putFails: bool, deleteFails: bool) returns (error: Option<Error>)
      requires iDbRowSet.Valid() && iDbRowSet.edit.Inserting? && !iModifyOrInsert && !iAppendOrUpdate
      requires BookmarkOK() && !iDbRowSet.gap && 1 <= iDbRowSet.pos
      modifies this`iPos, this`iAppendOrUpdate, this`iModifyOrInsert, this`iInsertMode, iDbRowSet
      ensures Valid() && iDbRowSet.edit == Reading
      ensures error.None? <==>
        !putFails && !deleteFails && iPosBeforeInsert.Some? && IndexOf(old(iDbRowSet.rows), iPosBeforeInsert.value) >= 0
      ensures error.Some? ==> error.value == Failed
      ensures error.None? ==>
        && PosOK() && iPos == |iDbRowSet.rows|
        && iDbRowSet.rows == Moved(old(iDbRowSet.rows), IndexOf(old(iDbRowSet.rows), iPosBeforeInsert.value),
                                   Row(old(iDbRowSet.nextId), old(iDbRowSet.edit).buffer))
      ensures putFails ==>
        iDbRowSet.rows == old(iDbRowSet.rows) && iPos == old(iPos) && iDbRowSet.pos == old(iDbRowSet.pos)
      ensures error.Some? && !putFails ==>
        && iDbRowSet.rows == WithRow(old(iDbRowSet.rows), Row(old(iDbRowSet.nextId), old(iDbRowSet.edit).buffer))
        && iPos == old(iPos) && iDbRowSet.pos == Stranded(old(iDbRowSet.rows), iPosBeforeInsert) && !iDbRowSet.gap
    {
      hide IndexOf, RemoveRow, Moved, FoundAt, WithRow;
      ghost var rows0, edited := iDbRowSet.rows, Row(iDbRowSet.nextId, iDbRowSet.edit.buffer);
      var ok := SafelyPutL(putFails);
      if !ok {
        return Some(Failed);
      }
      Stored(rows0, iDbRowSet.nextId - 1, edited, iPosBeforeInsert);
      ghost var i := if iPosBeforeInsert.Some? then IndexOf(rows0, iPosBeforeInsert.value) else -1;
      error := DeleteBookmarked(deleteFails, i);
    }

    /** Row `i` is the one the bookmark remembers, if there is one. */
    method DeleteBookmarked(fails: bool, ghost i: int) returns (error: Option<Error>)
      requires Idle() && !iDbRowSet.gap && 1 <= iDbRowSet.pos && -1 <= i < |iDbRowSet.rows| - 1
      requires iPosBeforeInsert.Some? ==> FoundAt(iDbRowSet.rows, iPosBeforeInsert.value, i)
      requires iPosBeforeInsert.None? ==> i == -1
      modifies this`iPos, iDbRowSet`rows, iDbRowSet`pos, iDbRowSet`gap
      ensures Valid()
      ensures error == if i < 0 || fails then Some(Failed) else None
      ensures error.None? ==> PosOK() && iPos == |iDbRowSet.rows| && iDbRowSet.rows == RemoveRow(old(iDbRowSet.rows), i)
      ensures error.Some? ==>
        && iDbRowSet.rows == old(iDbRowSet.rows) && iPos == old(iPos) && !iDbRowSet.gap
        && iDbRowSet.pos == if i < 0 then old(iDbRowSet.pos) else i + 1
    {
      hide Distinct, RemoveRow;
      if iPosBeforeInsert.None? {
        return Some(Failed);
      }
      assert i >= 0 ==> iDbRowSet.rows[i].id == iPosBeforeInsert.value;
      var ok := iDbRowSet.GotoL(iPosBeforeInsert.value);
      if !ok {
        return Some(Failed);
      }
      ok := iDbRowSet.DeleteL(fails);
      if !ok {
        return Some(Failed);
      }
      LastL();
      return None;
    }

    /** UPDATE without an edit: a copy of the current row replaces it. */
    method UpdateCurrentRow(putFails: bool, deleteFails: bool) returns (error: Option<Error>)
      requires Valid() && iDbRowSet.edit == Reading && iDbRowSet.AtRow()
      modifies this, iDbRowSet
      ensures Valid() && error == (if putFails || deleteFails then Some(Failed) else None)
      ensures error.None? ==>
        && PosOK() && iPos == |iDbRowSet.rows|
        && iDbRowSet.rows == Moved(old(iDbRowSet.rows), old(iDbRowSet.pos) - 1,
                                   Row(old(iDbRowSet.nextId), old(iDbRowSet.rows[iDbRowSet.pos - 1]).fields))
      ensures error.Some? ==>
        && iPos == old(iPos) && iDbRowSet.pos == old(iDbRowSet.pos) && iDbRowSet.edit == Reading
        && iDbRowSet.rows == old(iDbRowSet.rows)
             + if putFails then [] else [Row(old(iDbRowSet.nextId), old(iDbRowSet.rows[iDbRowSet.pos - 1]).fields)]
    {
      IndexOfUnique(iDbRowSet.rows, iDbRowSet.nextId, iDbRowSet.pos - 1);
      assert iDbRowSet.rows[iDbRowSet.pos - 1].id < iDbRowSet.nextId;
      hide Distinct, IndexOf, Moved;
      iPosBeforeInsert := Some(iDbRowSet.rows[iDbRowSet.pos - 1].id);
      iDbRowSet.InsertL(true);
      error := ReplaceBookmarked(putFails, deleteFails);
    }

    /** UPDATE. An edit that began when the file was empty is thrown away with an
        end-of-file error, and so is one while `iRowsWereAbsent` is left over from
        an earlier edit that CANCEL abandoned. If the edited row is stored and the
        old one cannot be taken away, both are there; the cursor is then on the
        old one, or on the stored one if the bookmark finds no row, and the record
        number is still that of the row the edit began on. */
    method UpdateL(putFails: bool, deleteFails: bool) returns (error: Option<Error>)
      requires Valid()
      modifies this, iDbRowSet
      ensures Valid()
      ensures error ==
        if old(iModifyOrInsert) then Some(IncompatibleUpdateMode)
        else if (if old(iAppendOrUpdate) then old(iRowsWereAbsent) else old(iDbRowSet.AtEnd())) then Some(Eof)
        else if putFails || deleteFails
                || (old(iAppendOrUpdate)
                    && (old(iPosBeforeInsert).None? || IndexOf(old(iDbRowSet.rows), old(iPosBeforeInsert).value) < 0))
        then Some(Failed)
        else None
      ensures error == Some(IncompatibleUpdateMode) || error == Some(Eof) ==>
        iDbRowSet.rows == old(iDbRowSet.rows) && iPos == old(iPos) && iDbRowSet.pos == old(iDbRowSet.pos)
      ensures error == Some(Eof) && old(iAppendOrUpdate) ==> iDbRowSet.edit == Reading && !iRowsWereAbsent
      ensures error.None? && !old(iAppendOrUpdate) ==>
        && PosOK() && iPos == |iDbRowSet.rows|
        && iDbRowSet.rows == Moved(old(iDbRowSet.rows), old(iDbRowSet.pos) - 1,
                                   Row(old(iDbRowSet.nextId), old(iDbRowSet.rows[iDbRowSet.pos - 1]).fields))
      ensures error.None? && old(iAppendOrUpdate) ==>
        && old(iPosBeforeInsert).Some? && IndexOf(old(iDbRowSet.rows), old(iPosBeforeInsert).value) >= 0
        && PosOK() && iPos == |iDbRowSet.rows|
        && iDbRowSet.rows == Moved(old(iDbRowSet.rows), IndexOf(old(iDbRowSet.rows), old(iPosBeforeInsert).value),
                                   Row(old(iDbRowSet.nextId), old(iDbRowSet.edit).buffer))
      ensures error == Some(Failed) ==>
        && iPos == old(iPos) && iDbRowSet.edit == Reading && !iDbRowSet.gap
        && iDbRowSet.rows == old(iDbRowSet.rows)
             + (if putFails then []
                else [Row(old(iDbRowSet.nextId), if old(iAppendOrUpdate) then old(iDbRowSet.edit).buffer
                                                 else old(iDbRowSet.rows[iDbRowSet.pos - 1]).fields)])
      ensures error == Some(Failed) ==>
        iDbRowSet.pos == if putFails || !old(iAppendOrUpdate) then old(iDbRowSet.pos)
                         else Stranded(old(iDbRowSet.rows), old(iPosBeforeInsert))
    {
      hide Distinct, IndexOf, Moved;
      if iModifyOrInsert {
        return Some(IncompatibleUpdateMode);
      }
      if iAppendOrUpdate {
        iAppendOrUpdate := false;
        if iRowsWereAbsent {
          iRowsWereAbsent := false;
          iDbRowSet.Cancel();
          return Some(Eof);
        }
        error := ReplaceBookmarked(putFails, deleteFails);
      } else if iDbRowSet.AtEnd() {
        error := Some(Eof);
      } else {
        error := UpdateCurrentRow(putFails, deleteFails);
      }
    }

    method ModifyL() returns (error: Option<Error>)
      requires Valid()
      modifies this`iModifyOrInsert, iDbRowSet`edit
      ensures Valid()
      ensures error == if !iDbRowSet.AtRow() then Some(Eof)
                       else if old(iAppendOrUpdate || iModifyOrInsert) then Some(IncompatibleUpdateMode) else None
      ensures error.None? ==> iModifyOrInsert && iDbRowSet.edit == Updating(iDbRowSet.rows[iDbRowSet.pos - 1].fields)
      ensures error.Some? ==> iModifyOrInsert == old(iModifyOrInsert) && iDbRowSet.edit == old(iDbRowSet.edit)
    {
      hide Distinct;
      if !iDbRowSet.AtRow() {
        return Some(Eof);
      }
      if !iAppendOrUpdate && !iModifyOrInsert {
        iModifyOrInsert := true;
        iDbRowSet.UpdateL();
        return None;
      }
      return Some(IncompatibleUpdateMode);
    }

    method InsertL() returns (error: Option<Error>)
      requires Valid()
      modifies this`iModifyOrInsert, this`iInsertMode, iDbRowSet`edit
      ensures Valid()
      ensures error == if old(iAppendOrUpdate || iModifyOrInsert) then Some(IncompatibleUpdateMode) else None
      ensures error.None? ==> iModifyOrInsert && iDbRowSet.edit == Inserting(map[]) && InsertModeOK()
      ensures error.Some? ==>
        iModifyOrInsert == old(iModifyOrInsert) && iDbRowSet.edit == old(iDbRowSet.edit) && iInsertMode == old(iInsertMode)
    {
      hide Distinct;
      if !iAppendOrUpdate && !iModifyOrInsert {
        iDbRowSet.InsertL(false);
        iModifyOrInsert, iInsertMode := true, true;
        return None;
      }
      return Some(IncompatibleUpdateMode);
    }

    /** PUT. The record number is right afterwards exactly if the row was being
        inserted, or is the last one, or no insertion was abandoned by moving off
        since the last PUT or CANCEL. */
    method PutL(fails: bool) returns (error: Option<Error>)
      requires Valid()
      modifies this`iPos, this`iAppendOrUpdate, this`iModifyOrInsert, this`iInsertMode, iDbRowSet
      ensures Valid()
      ensures error == if !old(iModifyOrInsert) then Some(IncompatibleUpdateMode) else if fails then Some(Failed) else None
      ensures error.Some? ==>
        iDbRowSet.rows == old(iDbRowSet.rows) && iPos == old(iPos) && iDbRowSet.pos == old(iDbRowSet.pos)
      ensures error.None? ==> iDbRowSet.edit == Reading && InsertModeOK()
      ensures error.None? && old(iDbRowSet.edit).Inserting? ==>
        && PosOK() && iPos == |iDbRowSet.rows|
        && iDbRowSet.rows == old(iDbRowSet.rows) + [Row(old(iDbRowSet.nextId), old(iDbRowSet.edit).buffer)]
      ensures error.None? && old(iDbRowSet.edit).Updating? ==>
        && iDbRowSet.rows == old(iDbRowSet.rows)
             [old(iDbRowSet.pos) - 1 :=
                old(iDbRowSet.rows[iDbRowSet.pos - 1]).(fields := old(iDbRowSet.edit).buffer)]
        && iDbRowSet.pos == old(iDbRowSet.pos) && iPos == (if old(iInsertMode) then |iDbRowSet.rows| else old(iPos))
        && (PosOK() <==> if old(iInsertMode) then old(iDbRowSet.pos) == |iDbRowSet.rows| else old(PosOK()))
    {
      hide Distinct;
      if !iModifyOrInsert || iAppendOrUpdate {
        return Some(IncompatibleUpdateMode);
      }
      var ok := SafelyPutL(fails);
      if !ok {
        return Some(Failed);
      }
      iModifyOrInsert := false;
      if iInsertMode {
        iPos := |iDbRowSet.rows|;
        iInsertMode := false;
      }
      return None;
    }
  }

  // ------------------------------------------------------- runs of keywords

  /** Assigning to a field of the current row and then UPDATE: the row goes, its
      edited copy is the last row and the current one. */
  method AssignThenUpdate(db: COplDbManager, column: nat, value: int) returns (error: Option<Error>)
    requires db.Valid() && db.iDbRowSet.edit == Reading && db.iDbRowSet.AtRow() && !db.iRowsWereAbsent
    modifies db, db.iDbRowSet
    ensures error.None? && db.Valid() && db.PosOK()
    ensures db.iDbRowSet.rows == Moved(old(db.iDbRowSet.rows), old(db.iDbRowSet.pos) - 1,
              Row(old(db.iDbRowSet.nextId), old(db.iDbRowSet.rows[db.iDbRowSet.pos - 1]).fields[column := value]))
  {
    IndexOfUnique(db.iDbRowSet.rows, db.iDbRowSet.nextId, db.iDbRowSet.pos - 1);
    hide Distinct, IndexOf, Moved;
    db.Assign(column, value);
    error := db.UpdateL(false, false);
  }

  /** The same at the end of the file: there is no current row, and the row that
      goes is the one an earlier edit remembered, row `j`. */
  method AssignThenUpdateAtEof(db: COplDbManager, column: nat, value: int, ghost j: nat) returns (error: Option<Error>)
    requires db.Valid() && db.iDbRowSet.edit == Reading && db.iDbRowSet.AtEnd() && !db.iRowsWereAbsent
    requires j < |db.iDbRowSet.rows| && db.iPosBeforeInsert == Some(db.iDbRowSet.rows[j].id)
    modifies db, db.iDbRowSet
    ensures error.None? && db.Valid() && db.PosOK()
    ensures db.iDbRowSet.rows
         == Moved(old(db.iDbRowSet.rows), j, Row(old(db.iDbRowSet.nextId), map[][column := value]))
  {
    IndexOfUnique(db.iDbRowSet.rows, db.iDbRowSet.nextId, j);
    hide Distinct, IndexOf, Moved;
    db.Assign(column, value);
    error := db.UpdateL(false, false);
  }

  /** An edit of an empty file that CANCEL abandons makes the next edit that
      UPDATE ends disappear, though there is a row by then. */
  method EditLostAfterCancel(db: COplDbManager, column: nat, value: int) returns (error: Option<Error>)
    requires db.Valid() && db.iDbRowSet.edit == Reading && db.iDbRowSet.rows == [] && !db.iRowsWereAbsent
    modifies db, db.iDbRowSet
    ensures error == Some(Eof) && |db.iDbRowSet.rows| == 1 && db.iDbRowSet.rows[0].fields == map[]
  {
    hide Distinct, IndexOf, Moved;
    db.Assign(column, value);
    db.Cancel();
    error := db.AppendL(false);
    db.Assign(column, value);
    error := db.UpdateL(false, false);
  }

  /** INSERT, a move, MODIFY and PUT: the cursor is on row 1, the record number
      says the last row. */
  method RecordNumberWrongAfterPut(db: COplDbManager, column: nat, value: int)
    requires db.Valid() && db.iDbRowSet.edit == Reading && |db.iDbRowSet.rows| > 1
    modifies db, db.iDbRowSet
    ensures db.iDbRowSet.pos == 1 && db.iPos == |db.iDbRowSet.rows| > 1
  {
    hide Distinct;
    var error := db.InsertL();
    db.CancelIfUpdate();
    db.FirstL();
    error := db.ModifyL();
    error := db.PutL(false);
  }
}
