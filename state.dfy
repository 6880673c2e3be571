/**
 * The editor's shared state: the list of lines, the next id to hand out,
 * the undo history of saved snapshots, the selection, the view scale and
 * the inline length-typing buffer.
 */
module State {
  import opened Wrappers
  import opened Plan

  /** `MAX_UNDO_STEPS`: the undo history keeps at most this many snapshots. */
  const MaxUndoSteps: nat := 50

  // ------------------------------------------------------------------
  // Searching the lines
  // ------------------------------------------------------------------

  /** The index of the first line with the given id (`findIndex`), if any. */
  function IndexOf(lines: seq<Line>, id: int): (r: Option<nat>)
    ensures r.Some? ==> r.value < |lines| && lines[r.value].id == id
    ensures r.Some? ==> forall j :: 0 <= j < r.value ==> lines[j].id != id
    ensures r.None? ==> forall j :: 0 <= j < |lines| ==> lines[j].id != id
  {
    if |lines| == 0 then None
    else if lines[0].id == id then Some(0)
    else match IndexOf(lines[1..], id)
      case None => None
      case Some(i) => Some(i + 1)
  }

  /** `lines.find(l => l.id === id) || null`. */
  function FindById(lines: seq<Line>, id: int): (r: Option<Line>)
    ensures r.Some? <==> exists j :: 0 <= j < |lines| && lines[j].id == id
    ensures r.Some? ==> r.value.id == id && r.value in lines
  {
    match IndexOf(lines, id)
    case None => None
    case Some(i) => Some(lines[i])
  }

  /** The lines without the first one that has the given id (`splice(idx, 1)`). */
  function RemoveFirst(lines: seq<Line>, id: int): seq<Line>
  {
    match IndexOf(lines, id)
    case None => lines
    case Some(i) => lines[..i] + lines[i + 1..]
  }

  /** A line id that is present is removed once; the others keep their order. */
  lemma RemoveFirstSpec(lines: seq<Line>, id: int)
    ensures IndexOf(lines, id).None? ==> RemoveFirst(lines, id) == lines
    ensures IndexOf(lines, id).Some? ==>
              var i := IndexOf(lines, id).value;
              |RemoveFirst(lines, id)| == |lines| - 1 &&
              RemoveFirst(lines, id) == lines[..i] + lines[i + 1..] &&
              multiset(RemoveFirst(lines, id)) + multiset{lines[i]} == multiset(lines)
  {
    match IndexOf(lines, id)
    case None =>
    case Some(i) =>
      CutOne(lines, i);
  }

  /** Cutting out one element leaves one fewer, and the rest as a multiset. */
  lemma CutOne(s: seq<Line>, i: nat)
    requires i < |s|
    ensures |s[..i] + s[i + 1..]| == |s| - 1
    ensures multiset(s[..i] + s[i + 1..]) + multiset{s[i]} == multiset(s)
  {
    assert s == s[..i] + [s[i]] + s[i + 1..];
  }

  /** Every line with a different id survives the removal. */
  lemma RemoveFirstKeepsOthers(lines: seq<Line>, id: int, other: Line)
    requires other in lines && other.id != id
    ensures other in RemoveFirst(lines, id)
  {
    match IndexOf(lines, id)
    case None =>
    case Some(i) =>
      var k :| 0 <= k < |lines| && lines[k] == other;
      if k < i {
        assert RemoveFirst(lines, id)[k] == other;
      } else {
        assert k != i;
        assert RemoveFirst(lines, id)[k - 1] == other;
      }
  }

  /** The search `findIndex` performs, written as the loop it stands for. */
  method FindIndex(lines: seq<Line>, id: int) returns (r: Option<nat>)
    ensures r == IndexOf(lines, id)
  {
    var i := 0;
    while i < |lines|
      invariant 0 <= i <= |lines|
      invariant forall j :: 0 <= j < i ==> lines[j].id != id
    {
      if lines[i].id == id {
        FirstIndexUnique(lines, id, i);
        return Some(i);
      }
      i := i + 1;
    }
    return None;
  }

  /** The index of the first line with an id is determined by that property. */
  lemma FirstIndexUnique(lines: seq<Line>, id: int, i: nat)
    requires i < |lines| && lines[i].id == id
    requires forall j :: 0 <= j < i ==> lines[j].id != id
    ensures IndexOf(lines, id) == Some(i)
  {
  }

  // ------------------------------------------------------------------
  // Snapshots
  // ------------------------------------------------------------------

  /**
   * What `saveState` keeps of a line: every field but `facingFlipped`.
   * The snapshot is a value, so later edits of the lines do not reach it.
   */
  datatype SavedLine = SavedLine(
    id: int,
    kind: Option<Kind>,
    heightInches: Option<real>,
    baseOffsetInches: Option<real>,
    x1: real, y1: real, x2: real, y2: real)

  function Save(l: Line): SavedLine
  {
    SavedLine(l.id, l.kind, l.heightInches, l.baseOffsetInches, l.x1, l.y1, l.x2, l.y2)
  }

  /** A line restored from a snapshot: `facingFlipped` is absent, so it reads as false. */
  function Restore(s: SavedLine): Line
  {
    Line(s.id, s.kind, s.heightInches, s.baseOffsetInches, s.x1, s.y1, s.x2, s.y2, false)
  }

  function Snapshot(lines: seq<Line>): (r: seq<SavedLine>)
    ensures |r| == |lines|
    ensures forall i :: 0 <= i < |lines| ==> r[i] == Save(lines[i])
  {
    seq(|lines|, i requires 0 <= i < |lines| => Save(lines[i]))
  }

  function RestoreAll(saved: seq<SavedLine>): (r: seq<Line>)
    ensures |r| == |saved|
    ensures forall i :: 0 <= i < |saved| ==> r[i] == Restore(saved[i])
  {
    seq(|saved|, i requires 0 <= i < |saved| => Restore(saved[i]))
  }

  /** The line with its manual flip cleared. */
  function Unflipped(l: Line): Line
  {
    l.(facingFlipped := false)
  }

  /** Restoring a snapshot gives back every line exactly, except that each flip is cleared. */
  lemma RestoreSnapshot(lines: seq<Line>)
    ensures |RestoreAll(Snapshot(lines))| == |lines|
    ensures forall i :: 0 <= i < |lines| ==> RestoreAll(Snapshot(lines))[i] == Unflipped(lines[i])
  {
  }

  /** A flipped line does not come back flipped: the snapshot loses `facingFlipped`. */
  lemma SnapshotLosesFlip(l: Line)
    requires l.facingFlipped
    ensures RestoreAll(Snapshot([l])) != [l]
  {
    assert RestoreAll(Snapshot([l]))[0].facingFlipped == false;
  }

  /** `Math.max(...lines.map(l => l.id), 0)`. */
  function MaxId(lines: seq<Line>): (r: int)
    ensures r >= 0
    ensures forall i :: 0 <= i < |lines| ==> lines[i].id <= r
    ensures r == 0 || exists i :: 0 <= i < |lines| && lines[i].id == r
  {
    if |lines| == 0 then 0
    else
      var rest := MaxId(lines[..|lines| - 1]);
      var last := lines[|lines| - 1].id;
      if last > rest then last else rest
  }

  /** The history after pushing a snapshot, with the oldest dropped once it is over the cap. */
  function PushBounded(history: seq<seq<SavedLine>>, s: seq<SavedLine>): seq<seq<SavedLine>>
  {
    var pushed := history + [s];
    if |pushed| > MaxUndoSteps then pushed[1..] else pushed
  }

  /** The cap holds, the new snapshot is on top, and only the oldest is ever dropped. */
  lemma PushBoundedSpec(history: seq<seq<SavedLine>>, s: seq<SavedLine>)
    requires |history| <= MaxUndoSteps
    ensures var h := PushBounded(history, s);
            |h| <= MaxUndoSteps && |h| > 0 && h[|h| - 1] == s &&
            (|history| < MaxUndoSteps ==> h == history + [s]) &&
            (|history| == MaxUndoSteps ==> h == history[1..] + [s])
  {
  }

  // ------------------------------------------------------------------
  // The state as a value
  // ------------------------------------------------------------------

  /** Everything the editing handlers read or change, as one value. */
  datatype StateValue = StateValue(
    lines: seq<Line>,
    nextLineId: int,
    undoHistory: seq<seq<SavedLine>>,
    selectedLineId: Option<int>,
    viewScale: real,
    inlineLengthInput: string,
    isTypingLength: bool)

  /** `saveState()` on a value: push a snapshot of the lines, capped. */
  function Saved(s: StateValue): StateValue
  {
    s.(undoHistory := PushBounded(s.undoHistory, Snapshot(s.lines)))
  }

  /** `undo()` on a value: an empty history changes nothing. */
  function Undone(s: StateValue): StateValue
  {
    if s.undoHistory == [] then s
    else
      var restored := RestoreAll(s.undoHistory[|s.undoHistory| - 1]);
      s.(undoHistory := s.undoHistory[..|s.undoHistory| - 1],
         lines := restored,
         nextLineId := MaxId(restored) + 1)
  }

  // ------------------------------------------------------------------
  // The state object
  // ------------------------------------------------------------------

  class AppState {
    var lines: seq<Line>
    var nextLineId: int
    var undoHistory: seq<seq<SavedLine>>
    var selectedLineId: Option<int>
    var viewScale: real
    var inlineLengthInput: string
    var isTypingLength: bool

    /** The history never holds more than `MaxUndoSteps` snapshots. */
    ghost predicate Valid()
      reads this
    {
      |undoHistory| <= MaxUndoSteps
    }

    /** The fields as one value. */
    function Value(): StateValue
      reads this
    {
      StateValue(lines, nextLineId, undoHistory, selectedLineId, viewScale, inlineLengthInput, isTypingLength)
    }

    /** The initial state: no lines, ids from 1, empty history, no selection, scale 1. */
    constructor ()
      ensures Valid()
      ensures lines == [] && nextLineId == 1 && undoHistory == []
      ensures selectedLineId == None && viewScale == 1.0
      ensures inlineLengthInput == "" && !isTypingLength
    {
      lines := [];
      nextLineId := 1;
      undoHistory := [];
      selectedLineId := None;
      viewScale := 1.0;
      inlineLengthInput := "";
      isTypingLength := false;
    }

    /** `addLine(line)`: append at the end. */
    method AddLine(line: Line)
      modifies this
      ensures lines == old(lines) + [line]
      ensures nextLineId == old(nextLineId) && undoHistory == old(undoHistory)
      ensures selectedLineId == old(selectedLineId) && viewScale == old(viewScale)
      ensures inlineLengthInput == old(inlineLengthInput) && isTypingLength == old(isTypingLength)
    {
      lines := lines + [line];
    }

    /** `removeLine(id)`: drop the first line with the id, if there is one. */
    method RemoveLine(id: int)
      modifies this
      ensures lines == RemoveFirst(old(lines), id)
      ensures nextLineId == old(nextLineId) && undoHistory == old(undoHistory)
      ensures selectedLineId == old(selectedLineId) && viewScale == old(viewScale)
      ensures inlineLengthInput == old(inlineLengthInput) && isTypingLength == old(isTypingLength)
    {
      var idx := FindIndex(lines, id);
      if idx.Some? {
        lines := lines[..idx.value] + lines[idx.value + 1..];
      }
    }

    /** `getLineById(id)`. */
    method GetLineById(id: int) returns (r: Option<Line>)
      ensures r == FindById(lines, id)
    {
      var idx := FindIndex(lines, id);
      if idx.Some? {
        r := Some(lines[idx.value]);
      } else {
        r := None;
      }
    }

    /** `getSelectedLine()`: no line when nothing is selected. */
    method GetSelectedLine() returns (r: Option<Line>)
      ensures selectedLineId.None? ==> r == None
      ensures selectedLineId.Some? ==> r == FindById(lines, selectedLineId.value)
    {
      if selectedLineId.Some? {
        r := GetLineById(selectedLineId.value);
      } else {
        r := None;
      }
    }

    /** A handler changing fields of the line at index `i` in place (`line.x2 = ...`). */
    method ReplaceLine(i: nat, l: Line)
      requires i < |lines|
      modifies this
      ensures lines == old(lines)[i := l]
      ensures nextLineId == old(nextLineId) && undoHistory == old(undoHistory)
      ensures selectedLineId == old(selectedLineId) && viewScale == old(viewScale)
      ensures inlineLengthInput == old(inlineLengthInput) && isTypingLength == old(isTypingLength)
    {
      lines := lines[i := l];
    }

    /** `saveState()`: push a snapshot of the lines, dropping the oldest beyond the cap. */
    method SaveState()
      requires Valid()
      modifies this
      ensures Valid()
      ensures undoHistory == PushBounded(old(undoHistory), Snapshot(lines))
      ensures lines == old(lines) && nextLineId == old(nextLineId)
      ensures selectedLineId == old(selectedLineId) && viewScale == old(viewScale)
      ensures inlineLengthInput == old(inlineLengthInput) && isTypingLength == old(isTypingLength)
    {
      undoHistory := undoHistory + [Snapshot(lines)];
      if |undoHistory| > MaxUndoSteps {
        undoHistory := undoHistory[1..];
      }
    }

    /**
     * `undo()`: with an empty history nothing changes; otherwise the latest
     * snapshot is popped and becomes the lines, and the next id is one more
     * than the largest restored id.
     */
    method Undo()
      requires Valid()
      modifies this
      ensures Valid()
      ensures old(undoHistory) == [] ==>
                lines == old(lines) && nextLineId == old(nextLineId) && undoHistory == []
      ensures old(undoHistory) != [] ==>
                undoHistory == old(undoHistory)[..|old(undoHistory)| - 1] &&
                lines == RestoreAll(old(undoHistory)[|old(undoHistory)| - 1]) &&
                nextLineId == MaxId(lines) + 1
      ensures selectedLineId == old(selectedLineId) && viewScale == old(viewScale)
      ensures inlineLengthInput == old(inlineLengthInput) && isTypingLength == old(isTypingLength)
    {
      if |undoHistory| == 0 {
        return;
      }
      var previous := undoHistory[|undoHistory| - 1];
      undoHistory := undoHistory[..|undoHistory| - 1];
      lines := RestoreAll(previous);
      nextLineId := MaxId(lines) + 1;
    }
  }

  // ------------------------------------------------------------------
  // Properties of saving and undoing
  // ------------------------------------------------------------------

  /** After an undo the next id is above every live id, and it is 1 for an empty plan. */
  lemma NextIdAfterUndo(lines: seq<Line>)
    ensures forall i :: 0 <= i < |lines| ==> lines[i].id < MaxId(lines) + 1
    ensures lines == [] ==> MaxId(lines) + 1 == 1
  {
  }

  /** Saving and then undoing restores the lines as they were, flips cleared, and the history. */
  lemma SaveThenUndo(history: seq<seq<SavedLine>>, lines: seq<Line>)
    requires |history| < MaxUndoSteps
    ensures var h := PushBounded(history, Snapshot(lines));
            h[..|h| - 1] == history &&
            forall i :: 0 <= i < |lines| ==> RestoreAll(h[|h| - 1])[i] == Unflipped(lines[i])
  {
  }

  /**
   * The next id is recomputed rather than restored, so an id handed out
   * after the snapshot is handed out again: with one line of id 1 saved
   * and a line of id 2 added, undo sets the next id back to 2.
   */
  lemma UndoReissuesId(l1: Line)
    requires l1.id == 1
    ensures MaxId(RestoreAll(Snapshot([l1]))) + 1 == 2
  {
    assert RestoreAll(Snapshot([l1]))[0].id == 1;
  }
}
