/**
 * The selection panel's edits (length, height, sill offset, offsets along
 * the parent wall), the wall flip button, and JSON export and import.
 *
 * As in the interaction module, each handler is a method on `State.AppState`
 * specified by a function on `State.StateValue`; the edited line is changed
 * in place, which the model renders as replacing it at its index.
 */
module UI {
  import opened Wrappers
  import opened JsValues
  import opened Plan
  import opened Geometry
  import opened Utils
  import opened State
  import Render2D
  import Render3D

  // ------------------------------------------------------------------
  // The selected line
  // ------------------------------------------------------------------

  /** The index of the line `getSelectedLine()` returns: the first with the selected id. */
  function SelectedIndex(s: StateValue): (r: Option<nat>)
    ensures r.Some? ==> r.value < |s.lines| && s.selectedLineId.Some? && s.lines[r.value].id == s.selectedLineId.value
  {
    if s.selectedLineId.Some? then IndexOf(s.lines, s.selectedLineId.value) else None
  }

  /** `getSelectedLine()` as an index into `st.lines`. */
  method FindSelected(st: AppState) returns (r: Option<nat>)
    ensures r == SelectedIndex(st.Value())
  {
    var line := st.GetSelectedLine();
    if line.None? {
      return None;
    }
    r := FindIndex(st.lines, line.value.id);
  }

  /** A door or a window. */
  predicate IsOpening(l: Line)
  {
    LineKind(l) == Door || LineKind(l) == Window
  }

  // ------------------------------------------------------------------
  // applyNewLength
  // ------------------------------------------------------------------

  /**
   * `applyNewLength`: a length that parses to more than 0 saves the state and,
   * unless the selected line has zero length, rescales it from its start.
   */
  function LengthEdited(sqrt: real -> real, s: StateValue, input: string): StateValue
  {
    match SelectedIndex(s)
    case None => s
    case Some(i) =>
      var inches := ParseLengthToInches(input);
      if inches.None? || inches.value <= 0.0 then s
      else if LineLength(sqrt, s.lines[i]) == 0.0 then Saved(s)
      else Saved(s).(lines := s.lines[i := Resized(sqrt, s.lines[i], inches.value)])
  }

  method ApplyNewLength(st: AppState, sqrt: real -> real, input: string)
    requires st.Valid()
    modifies st
    ensures st.Valid()
    ensures st.Value() == LengthEdited(sqrt, old(st.Value()), input)
  {
    var i := FindSelected(st);
    if i.None? {
      return;
    }
    var inches := ParseLengthToInches(input);
    if inches.None? || inches.value <= 0.0 {
      return;
    }
    st.SaveState();
    var line := st.lines[i.value];
    var currentLen := LineLength(sqrt, line);
    if currentLen == 0.0 {
      return;
    }
    st.ReplaceLine(i.value, Resized(sqrt, line, inches.value));
  }

  /**
   * An accepted length rescales the selected line to exactly that length,
   * keeping its start and direction; the other lines stay and the state was
   * saved first.
   */
  lemma LengthEditSetsLength(sqrt: real -> real, s: StateValue, input: string, i: nat, inches: real)
    requires IsSqrt(sqrt)
    requires SelectedIndex(s) == Some(i) && ParseLengthToInches(input) == Some(inches) && inches > 0.0
    requires LineLength(sqrt, s.lines[i]) != 0.0
    ensures var r := LengthEdited(sqrt, s, input);
            |r.lines| == |s.lines| &&
            (forall j :: 0 <= j < |s.lines| && j != i ==> r.lines[j] == s.lines[j]) &&
            Rescaled(sqrt, r.lines[i], s.lines[i], inches) &&
            r.undoHistory == Saved(s).undoHistory && r.selectedLineId == s.selectedLineId
  {
    var r := LengthEdited(sqrt, s, input);
    assert r == Saved(s).(lines := s.lines[i := Resized(sqrt, s.lines[i], inches)]);
    ResizedLength(sqrt, s.lines[i], inches);
  }

  /** A length that does not parse to more than 0, or no selection, changes nothing at all. */
  lemma LengthEditRejected(sqrt: real -> real, s: StateValue, input: string)
    requires SelectedIndex(s).None? || ParseLengthToInches(input).None? || ParseLengthToInches(input).value <= 0.0
    ensures LengthEdited(sqrt, s, input) == s
  {
  }

  // ------------------------------------------------------------------
  // applyNewHeight, applyNewOffset
  // ------------------------------------------------------------------

  /** `applyNewHeight`: on a door or window, a height that parses to more than 0 is saved and set. */
  function HeightEdited(s: StateValue, input: string): StateValue
  {
    match SelectedIndex(s)
    case None => s
    case Some(i) =>
      var inches := ParseLengthToInches(input);
      if !IsOpening(s.lines[i]) then s
      else if inches.None? || inches.value <= 0.0 then s
      else Saved(s).(lines := s.lines[i := s.lines[i].(heightInches := Some(inches.value))])
  }

  /** `applyNewOffset`: on a door or window, a sill offset that parses to 0 or more is saved and set. */
  function OffsetEdited(s: StateValue, input: string): StateValue
  {
    match SelectedIndex(s)
    case None => s
    case Some(i) =>
      var inches := ParseLengthToInches(input);
      if !IsOpening(s.lines[i]) then s
      else if inches.None? || inches.value < 0.0 then s
      else Saved(s).(lines := s.lines[i := s.lines[i].(baseOffsetInches := Some(inches.value))])
  }

  method ApplyNewHeight(st: AppState, input: string)
    requires st.Valid()
    modifies st
    ensures st.Valid()
    ensures st.Value() == HeightEdited(old(st.Value()), input)
  {
    var i := FindSelected(st);
    if i.None? {
      return;
    }
    var line := st.lines[i.value];
    var kind := LineKind(line);
    if kind != Door && kind != Window {
      return;
    }
    var inches := ParseLengthToInches(input);
    if inches.None? || inches.value <= 0.0 {
      return;
    }
    st.SaveState();
    st.ReplaceLine(i.value, line.(heightInches := Some(inches.value)));
  }

  method ApplyNewOffset(st: AppState, input: string)
    requires st.Valid()
    modifies st
    ensures st.Valid()
    ensures st.Value() == OffsetEdited(old(st.Value()), input)
  {
    var i := FindSelected(st);
    if i.None? {
      return;
    }
    var line := st.lines[i.value];
    var kind := LineKind(line);
    if kind != Door && kind != Window {
      return;
    }
    var inches := ParseLengthToInches(input);
    if inches.None? || inches.value < 0.0 {
      return;
    }
    st.SaveState();
    st.ReplaceLine(i.value, line.(baseOffsetInches := Some(inches.value)));
  }

  /**
   * A height edit changes the state only on a selected door or window with
   * a height above 0, and then the 3D view builds that opening exactly that
   * tall; nothing but the height of that one line changes.
   */
  lemma HeightEditReachesScene(s: StateValue, input: string)
    ensures var r := HeightEdited(s, input);
            var inches := ParseLengthToInches(input);
            (r != s ==> SelectedIndex(s).Some? && IsOpening(s.lines[SelectedIndex(s).value]) &&
                        inches.Some? && inches.value > 0.0) &&
            (r != s ==>
               var i := SelectedIndex(s).value;
               |r.lines| == |s.lines| &&
               (forall j :: 0 <= j < |s.lines| && j != i ==> r.lines[j] == s.lines[j]) &&
               r.lines[i].(heightInches := s.lines[i].heightInches) == s.lines[i] &&
               Render3D.ElementHeight(r.lines[i]) == inches.value)
  {
  }

  /**
   * An offset edit changes the state only on a selected door or window with
   * an offset of 0 or more, and then the 3D view puts that opening's sill
   * exactly there (0 included); nothing but that line's sill changes.
   */
  lemma OffsetEditReachesScene(s: StateValue, input: string)
    ensures var r := OffsetEdited(s, input);
            var inches := ParseLengthToInches(input);
            (r != s ==> SelectedIndex(s).Some? && IsOpening(s.lines[SelectedIndex(s).value]) &&
                        inches.Some? && inches.value >= 0.0) &&
            (r != s ==>
               var i := SelectedIndex(s).value;
               |r.lines| == |s.lines| &&
               (forall j :: 0 <= j < |s.lines| && j != i ==> r.lines[j] == s.lines[j]) &&
               r.lines[i].(baseOffsetInches := s.lines[i].baseOffsetInches) == s.lines[i] &&
               Render3D.ElementBase(r.lines[i]) == inches.value)
  {
  }

  /** Walls are never given a height or a sill by these edits. */
  lemma WallsKeepHeightAndSill(s: StateValue, input: string)
    requires SelectedIndex(s).Some? && !IsOpening(s.lines[SelectedIndex(s).value])
    ensures HeightEdited(s, input) == s && OffsetEdited(s, input) == s
  {
  }

  // ------------------------------------------------------------------
  // applyWallOffsetStart, applyWallOffsetEnd
  // ------------------------------------------------------------------

  /** Both endpoints moved by `delta` along `u`. */
  function Translated(l: Line, u: Point, delta: real): Line
  {
    l.(x1 := l.x1 + u.x * delta, y1 := l.y1 + u.y * delta, x2 := l.x2 + u.x * delta, y2 := l.y2 + u.y * delta)
  }

  /**
   * `r` is what `getWallOffsetsForElement(el)` can return over `lines`; this
   * is the contract of `Render2D.WallOffsetsForElement`.
   */
  ghost predicate ParentOffsetsAre(sqrt: real -> real, lines: seq<Line>, el: Line, r: Option<Render2D.WallOffsets>)
  {
    IsSqrt(sqrt) &&
    (LineLength(sqrt, el) == 0.0 ==> r == None) &&
    (LineLength(sqrt, el) != 0.0 ==>
       (r == None <==> forall i :: 0 <= i < |lines| ==> !Render2D.ParentCandidate(sqrt, el, lines[i]))) &&
    (r.Some? ==>
       LineLength(sqrt, el) != 0.0 &&
       exists i :: Render2D.BestParent(sqrt, el, lines, i) && r.value == Render2D.OffsetsOn(sqrt, el, lines[i]))
  }

  /** The offsets of an element are determined, and a reported parent is a wall of the plan with a length. */
  lemma ParentOffsetsDetermined(sqrt: real -> real, lines: seq<Line>, el: Line, r1: Option<Render2D.WallOffsets>,
                                r2: Option<Render2D.WallOffsets>)
    requires ParentOffsetsAre(sqrt, lines, el, r1) && ParentOffsetsAre(sqrt, lines, el, r2)
    ensures r1 == r2
    ensures r1.Some? ==>
              r1.value.parentWall in lines && LineKind(r1.value.parentWall) == Wall &&
              LineLength(sqrt, r1.value.parentWall) != 0.0
  {
    if r1.Some? && r2.Some? {
      var i :| Render2D.BestParent(sqrt, el, lines, i) && r1.value == Render2D.OffsetsOn(sqrt, el, lines[i]);
      var j :| Render2D.BestParent(sqrt, el, lines, j) && r2.value == Render2D.OffsetsOn(sqrt, el, lines[j]);
      Render2D.BestParentUnique(sqrt, el, lines, i, j);
    }
  }

  /** The input an offset-along-wall edit accepts: a selected door or window and an offset of 0 or more. */
  predicate WallOffsetAccepted(s: StateValue, input: string)
  {
    SelectedIndex(s).Some? && IsOpening(s.lines[SelectedIndex(s).value]) &&
    ParseLengthToInches(input).Some? && ParseLengthToInches(input).value >= 0.0
  }

  /**
   * `applyWallOffsetStart` once the input is accepted: with a parent wall,
   * save and move line `i` by `newOffset - fromStart` along the wall's unit
   * direction; without one, nothing changes.
   */
  function MovedFromStart(sqrt: real -> real, s: StateValue, i: nat, newOffset: real, r: Option<Render2D.WallOffsets>): StateValue
    requires i < |s.lines|
  {
    if r.None? || LineLength(sqrt, r.value.parentWall) == 0.0 then s
    else
      var u := Render2D.UnitDirection(sqrt, r.value.parentWall);
      Saved(s).(lines := s.lines[i := Translated(s.lines[i], u, newOffset - r.value.fromStart)])
  }

  /** `applyWallOffsetEnd` once accepted: the same, moving by `newOffset - fromEnd` towards the wall's start. */
  function MovedFromEnd(sqrt: real -> real, s: StateValue, i: nat, newOffset: real, r: Option<Render2D.WallOffsets>): StateValue
    requires i < |s.lines|
  {
    if r.None? || LineLength(sqrt, r.value.parentWall) == 0.0 then s
    else
      var u := Render2D.UnitDirection(sqrt, r.value.parentWall);
      Saved(s).(lines := s.lines[i := Translated(s.lines[i], u, -(newOffset - r.value.fromEnd))])
  }

  /** The checks both offset-along-wall handlers make first: the selected opening and the parsed offset. */
  method AcceptWallOffset(st: AppState, input: string) returns (r: Option<(nat, real)>)
    ensures r.Some? <==> WallOffsetAccepted(st.Value(), input)
    ensures r.Some? ==>
              r.value.0 < |st.lines| && Some(r.value.0) == SelectedIndex(st.Value()) &&
              ParseLengthToInches(input) == Some(r.value.1)
  {
    var i := FindSelected(st);
    if i.None? {
      return None;
    }
    var kind := LineKind(st.lines[i.value]);
    if kind != Door && kind != Window {
      return None;
    }
    var newOffset := ParseLengthToInches(input);
    if newOffset.None? || newOffset.value < 0.0 {
      return None;
    }
    return Some((i.value, newOffset.value));
  }

  /** A move on a wall with a length, written out. */
  lemma MovedFromStartOnWall(sqrt: real -> real, s: StateValue, i: nat, newOffset: real, r: Option<Render2D.WallOffsets>,
                           line: Line, u: Point, delta: real)
    requires i < |s.lines| && r.Some? && LineLength(sqrt, r.value.parentWall) != 0.0
    requires line == s.lines[i] && u == Render2D.UnitDirection(sqrt, r.value.parentWall) && delta == newOffset - r.value.fromStart
    ensures MovedFromStart(sqrt, s, i, newOffset, r) == Saved(s).(lines := s.lines[i := Translated(line, u, delta)])
  {
  }

  lemma MovedFromEndOnWall(sqrt: real -> real, s: StateValue, i: nat, newOffset: real, r: Option<Render2D.WallOffsets>,
                           line: Line, u: Point, delta: real)
    requires i < |s.lines| && r.Some? && LineLength(sqrt, r.value.parentWall) != 0.0
    requires line == s.lines[i] && u == Render2D.UnitDirection(sqrt, r.value.parentWall) && delta == -(newOffset - r.value.fromEnd)
    ensures MovedFromEnd(sqrt, s, i, newOffset, r) == Saved(s).(lines := s.lines[i := Translated(line, u, delta)])
  {
  }

  /** `t` is what the move from the start leaves: some parent-wall offsets of the selected line and the move by them. */
  ghost predicate MovedAlongFromStart(sqrt: real -> real, s: StateValue, input: string, t: StateValue)
    requires WallOffsetAccepted(s, input)
  {
    exists r :: ParentOffsetsAre(sqrt, s.lines, s.lines[SelectedIndex(s).value], r) &&
                t == MovedFromStart(sqrt, s, SelectedIndex(s).value, ParseLengthToInches(input).value, r)
  }

  lemma MovedAlongFromStartWitness(sqrt: real -> real, s: StateValue, input: string, i: nat, newOffset: real,
                                  r: Option<Render2D.WallOffsets>, t: StateValue)
    requires WallOffsetAccepted(s, input)
    requires SelectedIndex(s) == Some(i) && ParseLengthToInches(input) == Some(newOffset)
    requires ParentOffsetsAre(sqrt, s.lines, s.lines[i], r)
    requires t == MovedFromStart(sqrt, s, i, newOffset, r)
    ensures MovedAlongFromStart(sqrt, s, input, t)
  {
  }

  method ApplyWallOffsetStart(st: AppState, sqrt: real -> real, input: string)
    requires st.Valid() && IsSqrt(sqrt)
    modifies st
    ensures st.Valid()
    ensures !WallOffsetAccepted(old(st.Value()), input) ==> st.Value() == old(st.Value())
    ensures WallOffsetAccepted(old(st.Value()), input) ==> MovedAlongFromStart(sqrt, old(st.Value()), input, st.Value())
  {
    ghost var s := st.Value();
    var accepted := AcceptWallOffset(st, input);
    if accepted.None? {
      return;
    }
    var (i, newOffset) := accepted.value;
    var line := st.lines[i];
    assert WallOffsetAccepted(s, input) && SelectedIndex(s) == Some(i) && s.lines[i] == line;
    var currentOffsets := Render2D.WallOffsetsForElement(sqrt, st.lines, line);
    assert ParentOffsetsAre(sqrt, s.lines, s.lines[i], currentOffsets);
    if currentOffsets.None? {
      MovedAlongFromStartWitness(sqrt, s, input, i, newOffset, currentOffsets, st.Value());
      return;
    }
    ParentOffsetsDetermined(sqrt, s.lines, line, currentOffsets, currentOffsets);
    var delta := newOffset - currentOffsets.value.fromStart;
    var wu := Render2D.UnitDirection(sqrt, currentOffsets.value.parentWall);
    ghost var moved := Saved(s).(lines := s.lines[i := Translated(line, wu, delta)]);
    MovedFromStartOnWall(sqrt, s, i, newOffset, currentOffsets, line, wu, delta);
    assert moved == MovedFromStart(sqrt, s, i, newOffset, currentOffsets);
    st.SaveState();
    st.ReplaceLine(i, Translated(line, wu, delta));
    assert st.Value() == moved;
    MovedAlongFromStartWitness(sqrt, s, input, i, newOffset, currentOffsets, st.Value());
  }

  /** `t` is what the move from the end leaves: some parent-wall offsets of the selected line and the move by them. */
  ghost predicate MovedAlongFromEnd(sqrt: real -> real, s: StateValue, input: string, t: StateValue)
    requires WallOffsetAccepted(s, input)
  {
    exists r :: ParentOffsetsAre(sqrt, s.lines, s.lines[SelectedIndex(s).value], r) &&
                t == MovedFromEnd(sqrt, s, SelectedIndex(s).value, ParseLengthToInches(input).value, r)
  }

  lemma MovedAlongFromEndWitness(sqrt: real -> real, s: StateValue, input: string, i: nat, newOffset: real,
                                  r: Option<Render2D.WallOffsets>, t: StateValue)
    requires WallOffsetAccepted(s, input)
    requires SelectedIndex(s) == Some(i) && ParseLengthToInches(input) == Some(newOffset)
    requires ParentOffsetsAre(sqrt, s.lines, s.lines[i], r)
    requires t == MovedFromEnd(sqrt, s, i, newOffset, r)
    ensures MovedAlongFromEnd(sqrt, s, input, t)
  {
  }

  method ApplyWallOffsetEnd(st: AppState, sqrt: real -> real, input: string)
    requires st.Valid() && IsSqrt(sqrt)
    modifies st
    ensures st.Valid()
    ensures !WallOffsetAccepted(old(st.Value()), input) ==> st.Value() == old(st.Value())
    ensures WallOffsetAccepted(old(st.Value()), input) ==> MovedAlongFromEnd(sqrt, old(st.Value()), input, st.Value())
  {
    ghost var s := st.Value();
    var accepted := AcceptWallOffset(st, input);
    if accepted.None? {
      return;
    }
    var (i, newOffset) := accepted.value;
    var line := st.lines[i];
    assert WallOffsetAccepted(s, input) && SelectedIndex(s) == Some(i) && s.lines[i] == line;
    var currentOffsets := Render2D.WallOffsetsForElement(sqrt, st.lines, line);
    assert ParentOffsetsAre(sqrt, s.lines, s.lines[i], currentOffsets);
    if currentOffsets.None? {
      MovedAlongFromEndWitness(sqrt, s, input, i, newOffset, currentOffsets, st.Value());
      return;
    }
    ParentOffsetsDetermined(sqrt, s.lines, line, currentOffsets, currentOffsets);
    var delta := newOffset - currentOffsets.value.fromEnd;
    var wu := Render2D.UnitDirection(sqrt, currentOffsets.value.parentWall);
    // `x -= wu.x * delta` on both endpoints: a move by `-delta` along `wu`.
    var shift := -delta;
    ghost var moved := Saved(s).(lines := s.lines[i := Translated(line, wu, shift)]);
    MovedFromEndOnWall(sqrt, s, i, newOffset, currentOffsets, line, wu, shift);
    assert moved == MovedFromEnd(sqrt, s, i, newOffset, currentOffsets);
    st.SaveState();
    st.ReplaceLine(i, Translated(line, wu, shift));
    assert st.Value() == moved;
    MovedAlongFromEndWitness(sqrt, s, input, i, newOffset, currentOffsets, st.Value());
  }

  /** A translation keeps the line's length. */
  lemma TranslatedKeepsLength(sqrt: real -> real, l: Line, u: Point, delta: real)
    ensures LineLength(sqrt, Translated(l, u, delta)) == LineLength(sqrt, l)
  {
    var t := Translated(l, u, delta);
    assert t.x2 - t.x1 == l.x2 - l.x1 && t.y2 - t.y1 == l.y2 - l.y1;
    assert SquaredDistance(EndOf(t), StartOf(t)) == SquaredDistance(EndOf(l), StartOf(l));
  }

  /** A wall's unit direction has length 1. */
  lemma UnitDirectionIsUnit(sqrt: real -> real, wall: Line)
    requires IsSqrt(sqrt) && LineLength(sqrt, wall) != 0.0
    ensures var u := Render2D.UnitDirection(sqrt, wall);
            u.x * u.x + u.y * u.y == 1.0
  {
    var u := Render2D.UnitDirection(sqrt, wall);
    var wlen := LineLength(sqrt, wall);
    var dx, dy := wall.x2 - wall.x1, wall.y2 - wall.y1;
    ZeroLengthIff(sqrt, wall);
    SqValue(dx);
    SqValue(dy);
    assert wlen * wlen == dx * dx + dy * dy;
    QuotientTimes(dx, wlen);
    QuotientTimes(dy, wlen);
    assert u.x * wlen == dx && u.y * wlen == dy;
    assert (u.x * u.x + u.y * u.y) * (wlen * wlen) == (u.x * wlen) * (u.x * wlen) + (u.y * wlen) * (u.y * wlen);
    SqValue(wlen);
    CancelNonZero(u.x * u.x + u.y * u.y, 1.0, wlen * wlen);
  }

  /** Moving a point by `delta` along a unit vector moves its projection on that vector by `delta`. */
  lemma ProjectShift(wall: Line, u: Point, p: Point, delta: real)
    requires u.x * u.x + u.y * u.y == 1.0
    ensures Render2D.Project(wall, u, Point(p.x + u.x * delta, p.y + u.y * delta)) == Render2D.Project(wall, u, p) + delta
  {
    assert (p.x + u.x * delta - wall.x1) * u.x == (p.x - wall.x1) * u.x + delta * (u.x * u.x);
    assert (p.y + u.y * delta - wall.y1) * u.y == (p.y - wall.y1) * u.y + delta * (u.y * u.y);
  }

  /** Translating an element along a wall's unit direction shifts its span on that wall by `delta`. */
  lemma SpanShift(sqrt: real -> real, wall: Line, el: Line, delta: real)
    requires IsSqrt(sqrt) && LineLength(sqrt, wall) != 0.0
    ensures var span := Render2D.Span(sqrt, wall, el);
            Render2D.Span(sqrt, wall, Translated(el, Render2D.UnitDirection(sqrt, wall), delta)) ==
            (span.0 + delta, span.1 + delta)
  {
    var u := Render2D.UnitDirection(sqrt, wall);
    UnitDirectionIsUnit(sqrt, wall);
    var t := Translated(el, u, delta);
    assert StartOf(t) == Point(el.x1 + u.x * delta, el.y1 + u.y * delta);
    assert EndOf(t) == Point(el.x2 + u.x * delta, el.y2 + u.y * delta);
    ProjectShift(wall, u, StartOf(el), delta);
    ProjectShift(wall, u, EndOf(el), delta);
  }

  /**
   * Moving from the start: when the element does not overhang the wall's
   * start and the requested offset is not negative, the element moved by
   * `newOffset - fromStart` along the wall is `newOffset` from the wall's
   * start, its offset from the end shrinks by the same amount (down to 0),
   * and its length is unchanged.
   */
  lemma MoveFromStartSetsOffset(sqrt: real -> real, el: Line, wall: Line, newOffset: real)
    requires IsSqrt(sqrt) && LineLength(sqrt, wall) != 0.0
    requires Render2D.Span(sqrt, wall, el).0 >= 0.0 && newOffset >= 0.0
    ensures var o := Render2D.OffsetsOn(sqrt, el, wall);
            var delta := newOffset - o.fromStart;
            var moved := Translated(el, Render2D.UnitDirection(sqrt, wall), delta);
            var o2 := Render2D.OffsetsOn(sqrt, moved, wall);
            o2.fromStart == newOffset &&
            o2.fromEnd == Render2D.Max(0.0, LineLength(sqrt, wall) - Render2D.Span(sqrt, wall, el).1 - delta) &&
            LineLength(sqrt, moved) == LineLength(sqrt, el)
  {
    var o := Render2D.OffsetsOn(sqrt, el, wall);
    SpanShift(sqrt, wall, el, newOffset - o.fromStart);
    TranslatedKeepsLength(sqrt, el, Render2D.UnitDirection(sqrt, wall), newOffset - o.fromStart);
  }

  /**
   * Moving from the end: when the element does not overhang the wall's end
   * and the requested offset is not negative, the element moved by
   * `-(newOffset - fromEnd)` along the wall is `newOffset` from the wall's
   * end, and its length is unchanged.
   */
  lemma MoveFromEndSetsOffset(sqrt: real -> real, el: Line, wall: Line, newOffset: real)
    requires IsSqrt(sqrt) && LineLength(sqrt, wall) != 0.0
    requires Render2D.Span(sqrt, wall, el).1 <= LineLength(sqrt, wall) && newOffset >= 0.0
    ensures var o := Render2D.OffsetsOn(sqrt, el, wall);
            var moved := Translated(el, Render2D.UnitDirection(sqrt, wall), -(newOffset - o.fromEnd));
            Render2D.OffsetsOn(sqrt, moved, wall).fromEnd == newOffset &&
            LineLength(sqrt, moved) == LineLength(sqrt, el)
  {
    var o := Render2D.OffsetsOn(sqrt, el, wall);
    SpanShift(sqrt, wall, el, -(newOffset - o.fromEnd));
    TranslatedKeepsLength(sqrt, el, Render2D.UnitDirection(sqrt, wall), -(newOffset - o.fromEnd));
  }

  // ------------------------------------------------------------------
  // The flip button
  // ------------------------------------------------------------------

  /** The flip button: on a selected wall, save and toggle `facingFlipped`. */
  function Flipped(s: StateValue): StateValue
  {
    match SelectedIndex(s)
    case None => s
    case Some(i) =>
      if LineKind(s.lines[i]) != Wall then s
      else Saved(s).(lines := s.lines[i := s.lines[i].(facingFlipped := !s.lines[i].facingFlipped)])
  }

  method FlipFacing(st: AppState)
    requires st.Valid()
    modifies st
    ensures st.Valid()
    ensures st.Value() == Flipped(old(st.Value()))
  {
    var i := FindSelected(st);
    if i.None? {
      return;
    }
    var line := st.lines[i.value];
    if LineKind(line) != Wall {
      return;
    }
    st.SaveState();
    st.ReplaceLine(i.value, line.(facingFlipped := !line.facingFlipped));
  }

  /** Changing a line in a way that keeps its id keeps every first index by id. */
  lemma IndexOfSameIds(lines: seq<Line>, i: nat, l: Line, id: int)
    requires i < |lines| && l.id == lines[i].id
    ensures IndexOf(lines[i := l], id) == IndexOf(lines, id)
  {
    var m := lines[i := l];
    assert forall j :: 0 <= j < |m| ==> m[j].id == lines[j].id;
    match IndexOf(lines, id)
    case None =>
    case Some(k) => FirstIndexUnique(m, id, k);
  }

  /**
   * The flip acts on walls only, and on a wall it turns the drawn thickness
   * to the other side; flipping twice gives back the lines.
   */
  lemma FlipTurnsWall(sqrt: real -> real, s: StateValue, centroid: Point)
    ensures SelectedIndex(s).None? || LineKind(s.lines[SelectedIndex(s).value]) != Wall ==> Flipped(s) == s
    ensures Flipped(Flipped(s)).lines == s.lines
    ensures SelectedIndex(s).Some? && LineKind(s.lines[SelectedIndex(s).value]) == Wall &&
            LineLength(sqrt, s.lines[SelectedIndex(s).value]) != 0.0 ==>
              var i := SelectedIndex(s).value;
              Render2D.FacingNormal(sqrt, Flipped(s).lines[i], centroid) ==
              Render2D.Negate(Render2D.FacingNormal(sqrt, s.lines[i], centroid))
  {
    match SelectedIndex(s)
    case None =>
    case Some(i) =>
      if LineKind(s.lines[i]) == Wall {
        var l := s.lines[i];
        var t := Flipped(s);
        assert t.lines == s.lines[i := l.(facingFlipped := !l.facingFlipped)];
        IndexOfSameIds(s.lines, i, l.(facingFlipped := !l.facingFlipped), s.selectedLineId.value);
        assert SelectedIndex(t) == Some(i);
        assert t.lines[i].(facingFlipped := !t.lines[i].facingFlipped) == l;
        assert Flipped(t).lines == t.lines[i := l];
        if LineLength(sqrt, l) != 0.0 {
          Render2D.FlipReversesFacing(sqrt, l, centroid);
        }
      }
  }

  // ------------------------------------------------------------------
  // exportToJson
  // ------------------------------------------------------------------

  /** `lineKind(l)` as the string it is exported as. */
  function KindName(k: Kind): string
  {
    match k
    case Wall => "wall"
    case Door => "door"
    case Window => "window"
  }

  /**
   * One exported line: the coordinates and kind always; `heightInches` and
   * `baseOffsetInches` only when set; `facingFlipped` only when true.
   */
  function ExportedLine(l: Line): Json
  {
    var base := map["x1" := Num(l.x1), "y1" := Num(l.y1), "x2" := Num(l.x2), "y2" := Num(l.y2),
                    "kind" := Str(KindName(LineKind(l)))];
    var withHeight := if l.heightInches.Some? then base["heightInches" := Num(l.heightInches.value)] else base;
    var withBase :=
      if l.baseOffsetInches.Some? then withHeight["baseOffsetInches" := Num(l.baseOffsetInches.value)]
      else withHeight;
    Obj(if l.facingFlipped then withBase["facingFlipped" := Bool(true)] else withBase)
  }

  function ExportedLines(lines: seq<Line>): (r: seq<Json>)
    ensures |r| == |lines|
  {
    seq(|lines|, i requires 0 <= i < |lines| => ExportedLine(lines[i]))
  }

  /** `{ lines: [...], settings }`, the settings read off the panel's inputs. */
  function ExportToJson(lines: seq<Line>, settings: map<string, Json>): Json
  {
    Obj(map["lines" := Arr(ExportedLines(lines)), "settings" := Obj(settings)])
  }

  /**
   * Reading an exported line back: the coordinates and the kind's name are
   * there, and an optional field is there (with its value) exactly when the
   * line has it.
   */
  lemma ExportedFields(l: Line)
    ensures Get(ExportedLine(l), "x1") == Num(l.x1) && Get(ExportedLine(l), "y1") == Num(l.y1)
    ensures Get(ExportedLine(l), "x2") == Num(l.x2) && Get(ExportedLine(l), "y2") == Num(l.y2)
    ensures Get(ExportedLine(l), "kind") == Str(KindName(LineKind(l)))
    ensures Get(ExportedLine(l), "heightInches") ==
            if l.heightInches.Some? then Num(l.heightInches.value) else Undefined
    ensures Get(ExportedLine(l), "baseOffsetInches") ==
            if l.baseOffsetInches.Some? then Num(l.baseOffsetInches.value) else Undefined
    ensures Get(ExportedLine(l), "facingFlipped") == if l.facingFlipped then Bool(true) else Undefined
  {
    var base := map["x1" := Num(l.x1), "y1" := Num(l.y1), "x2" := Num(l.x2), "y2" := Num(l.y2),
                    "kind" := Str(KindName(LineKind(l)))];
    var withHeight := if l.heightInches.Some? then base["heightInches" := Num(l.heightInches.value)] else base;
    var withBase :=
      if l.baseOffsetInches.Some? then withHeight["baseOffsetInches" := Num(l.baseOffsetInches.value)]
      else withHeight;
    var full := if l.facingFlipped then withBase["facingFlipped" := Bool(true)] else withBase;
    assert ExportedLine(l) == Obj(full);
    assert |"heightInches"| == 12 && |"baseOffsetInches"| == 16 && |"facingFlipped"| == 13;
    assert "heightInches" !in base && "baseOffsetInches" !in base && "facingFlipped" !in base;
    assert "baseOffsetInches" !in withHeight && "facingFlipped" !in withHeight;
    assert "facingFlipped" !in withBase;
  }

  // ------------------------------------------------------------------
  // importFromJson
  // ------------------------------------------------------------------

  /** The array of items: the data itself, or its `lines` field; anything else is refused. */
  function ImportItems(data: Json): Option<seq<Json>>
  {
    if data.Arr? then Some(data.elems)
    else if Get(data, "lines").Arr? then Some(Get(data, "lines").elems)
    else None
  }

  /** A string kind, lowercased; "door" and "window" are kept and anything else is a wall. */
  function ImportedKind(v: Json): Kind
  {
    var kindRaw := if v.Str? then ToLower(v.s) else "wall";
    if kindRaw == "door" then Door else if kindRaw == "window" then Window else Wall
  }

  /** `v != null && isFinite(Number(v)) ? Number(v) : null`. */
  function OptionalNumber(v: Json): Option<real>
  {
    if v.Null? || v.Undefined? then None
    else match ToNumber(v)
      case Finite(x) => Some(x)
      case NotFinite => None
  }

  /**
   * One item as a line with the given id: an object (or array) whose four
   * coordinates convert to finite numbers; anything else is skipped.
   */
  function ImportedLine(item: Json, id: int): (r: Option<Line>)
    ensures r.None? <==>
              !(item.Obj? || item.Arr?) ||
              !ToNumber(Get(item, "x1")).Finite? || !ToNumber(Get(item, "y1")).Finite? ||
              !ToNumber(Get(item, "x2")).Finite? || !ToNumber(Get(item, "y2")).Finite?
    ensures r.Some? ==>
              r.value.id == id && r.value.kind == Some(ImportedKind(Get(item, "kind"))) &&
              r.value.facingFlipped == (Get(item, "facingFlipped") == Bool(true))
  {
    if !(item.Obj? || item.Arr?) then None
    else
      var x1, y1 := ToNumber(Get(item, "x1")), ToNumber(Get(item, "y1"));
      var x2, y2 := ToNumber(Get(item, "x2")), ToNumber(Get(item, "y2"));
      if !x1.Finite? || !y1.Finite? || !x2.Finite? || !y2.Finite? then None
      else
        Some(Line(id, Some(ImportedKind(Get(item, "kind"))),
                  OptionalNumber(Get(item, "heightInches")), OptionalNumber(Get(item, "baseOffsetInches")),
                  x1.value, y1.value, x2.value, y2.value,
                  Get(item, "facingFlipped") == Bool(true)))
  }

  /** The kept items in order, numbered from 1. */
  function ImportedLines(items: seq<Json>): (r: seq<Line>)
    ensures |r| <= |items|
  {
    if items == [] then []
    else
      var kept := ImportedLines(items[..|items| - 1]);
      match ImportedLine(items[|items| - 1], |kept| + 1)
      case Some(l) => kept + [l]
      case None => kept
  }

  /** The state after a successful import: the new lines, the next id after them, no selection, scale 1. */
  function Imported(s: StateValue, lines: seq<Line>): StateValue
  {
    s.(lines := lines, nextLineId := |lines| + 1, selectedLineId := None, viewScale := 1.0)
  }

  /** The loop of `importFromJSON` over the items: the lines it keeps, numbered from 1, and the next id. */
  method ReadLines(arr: seq<Json>) returns (newLines: seq<Line>, idCounter: int)
    ensures newLines == ImportedLines(arr) && idCounter == |newLines| + 1
  {
    newLines := [];
    idCounter := 1;
    for k := 0 to |arr|
      invariant newLines == ImportedLines(arr[..k])
      invariant idCounter == |newLines| + 1
    {
      assert arr[..k + 1][..k] == arr[..k];
      var item := arr[k];
      if !(item.Obj? || item.Arr?) {
        continue;
      }
      var x1 := ToNumber(Get(item, "x1"));
      var y1 := ToNumber(Get(item, "y1"));
      var x2 := ToNumber(Get(item, "x2"));
      var y2 := ToNumber(Get(item, "y2"));
      if !x1.Finite? || !y1.Finite? || !x2.Finite? || !y2.Finite? {
        continue;
      }
      var kindRaw := if Get(item, "kind").Str? then ToLower(Get(item, "kind").s) else "wall";
      var kind := if kindRaw == "door" then Door else if kindRaw == "window" then Window else Wall;
      var heightInches := OptionalNumber(Get(item, "heightInches"));
      var baseOffsetInches := OptionalNumber(Get(item, "baseOffsetInches"));
      var facingFlipped := Get(item, "facingFlipped") == Bool(true);
      var newLine := Line(idCounter, Some(kind), heightInches, baseOffsetInches,
                          x1.value, y1.value, x2.value, y2.value, facingFlipped);
      newLines := newLines + [newLine];
      idCounter := idCounter + 1;
    }
    assert arr[..|arr|] == arr;
  }

  /** `importFromJson` on the parsed JSON: refused data changes nothing. */
  method ImportFromJson(st: AppState, data: Json) returns (imported: bool)
    requires st.Valid()
    modifies st
    ensures st.Valid()
    ensures imported == ImportItems(data).Some?
    ensures st.Value() == if imported then Imported(old(st.Value()), ImportedLines(ImportItems(data).value))
                          else old(st.Value())
  {
    var arr: seq<Json>;
    if data.Arr? {
      arr := data.elems;
    } else if Get(data, "lines").Arr? {
      arr := Get(data, "lines").elems;
    } else {
      return false;
    }
    var newLines, idCounter := ReadLines(arr);
    st.lines := newLines;
    st.nextLineId := idCounter;
    st.selectedLineId := None;
    st.viewScale := 1.0;
    imported := true;
  }

  /** Imported lines are numbered 1, 2, ... in input order, so the next id is above all of them. */
  lemma {:induction false} ImportedIds(items: seq<Json>)
    ensures forall k :: 0 <= k < |ImportedLines(items)| ==> ImportedLines(items)[k].id == k + 1
  {
    if items != [] {
      var prefix := items[..|items| - 1];
      ImportedIds(prefix);
      var kept := ImportedLines(prefix);
      match ImportedLine(items[|items| - 1], |kept| + 1)
      case Some(l) => assert ImportedLines(items) == kept + [l];
      case None =>
        assert ImportedLines(items) == kept;
    }
  }

  /** Every imported line is an item of the input, converted with its position among the kept ones as id. */
  lemma {:induction false} ImportedFromItems(items: seq<Json>)
    ensures forall k :: 0 <= k < |ImportedLines(items)| ==>
              exists j :: 0 <= j < |items| && ImportedLine(items[j], k + 1) == Some(ImportedLines(items)[k])
  {
    if items != [] {
      var prefix := items[..|items| - 1];
      ImportedFromItems(prefix);
      var r := ImportedLines(items);
      var kept := ImportedLines(prefix);
      var last := ImportedLine(items[|items| - 1], |kept| + 1);
      assert r == if last.Some? then kept + [last.value] else kept;
      forall k | 0 <= k < |ImportedLines(items)|
        ensures exists j :: 0 <= j < |items| && ImportedLine(items[j], k + 1) == Some(ImportedLines(items)[k])
      {
        if k < |kept| {
          assert r[k] == kept[k];
          var j :| 0 <= j < |prefix| && ImportedLine(prefix[j], k + 1) == Some(kept[k]);
          assert items[j] == prefix[j];
        } else {
          var j := |items| - 1;
          assert k == |kept| && r[k] == last.value;
          assert ImportedLine(items[j], k + 1) == Some(r[k]);
        }
      }
    } else {
      assert ImportedLines(items) == [];
    }
  }

  /** An item that cannot be converted is skipped: it adds no line. */
  lemma SkippedItem(items: seq<Json>, item: Json)
    requires !(item.Obj? || item.Arr?) ||
             !ToNumber(Get(item, "x1")).Finite? || !ToNumber(Get(item, "y1")).Finite? ||
             !ToNumber(Get(item, "x2")).Finite? || !ToNumber(Get(item, "y2")).Finite?
    ensures ImportedLines(items + [item]) == ImportedLines(items)
  {
    assert (items + [item])[..|items|] == items;
  }

  /**
   * Coordinates given as numeric strings are read as `Number` reads them:
   * an object such as `{"x1": "1e3", "y1": 0, "x2": 0, "y2": "0x10"}`, with
   * none of the optional fields, imports as one wall from (1000, 0) to (0, 16).
   */
  lemma ImportsNumericStrings(item: Json)
    requires item.Obj?
    requires Get(item, "x1") == Str("1e3") && Get(item, "y1") == Num(0.0)
    requires Get(item, "x2") == Num(0.0) && Get(item, "y2") == Str("0x10")
    requires Get(item, "kind") == Undefined && Get(item, "facingFlipped") == Undefined
    requires Get(item, "heightInches") == Undefined && Get(item, "baseOffsetInches") == Undefined
    ensures ImportedLines([item]) == [Line(1, Some(Wall), None, None, 1000.0, 0.0, 0.0, 16.0, false)]
  {
    ReadsScientific();
    ReadsHexadecimal();
    assert ImportedKind(Undefined) == Wall;
    assert [item][..0] == [];
  }

  /** Lowercasing leaves a string without capitals alone. */
  lemma ToLowerNoCapitals(s: string)
    requires forall i :: 0 <= i < |s| ==> !('A' <= s[i] <= 'Z')
    ensures ToLower(s) == s
  {
  }

  /** An exported kind is imported as itself. */
  lemma ImportedKindName(k: Kind)
    ensures ImportedKind(Str(KindName(k))) == k
  {
    ToLowerNoCapitals(KindName(k));
    assert "wall" != "door" && "wall" != "window" && "door" != "window";
  }

  /** What an exported line comes back as: numbered `id`, with its kind spelled out. */
  function Reimported(l: Line, id: int): Line
  {
    l.(id := id, kind := Some(LineKind(l)))
  }

  /** One exported line imports back as itself, renumbered and with its kind spelled out. */
  lemma ExportedLineImports(l: Line, id: int)
    ensures ImportedLine(ExportedLine(l), id) == Some(Reimported(l, id))
  {
    ExportedFields(l);
    ImportedKindName(LineKind(l));
    assert OptionalNumber(Get(ExportedLine(l), "heightInches")) == l.heightInches;
    assert OptionalNumber(Get(ExportedLine(l), "baseOffsetInches")) == l.baseOffsetInches;
  }

  /** Importing the export of one more line appends that line, renumbered after the others. */
  lemma ExportThenImportStep(lines: seq<Line>)
    requires lines != []
    requires |ImportedLines(ExportedLines(lines[..|lines| - 1]))| == |lines| - 1
    ensures ImportedLines(ExportedLines(lines)) ==
            ImportedLines(ExportedLines(lines[..|lines| - 1])) + [Reimported(lines[|lines| - 1], |lines|)]
  {
    var n := |lines|;
    var ex := ExportedLines(lines);
    assert ex[..n - 1] == ExportedLines(lines[..n - 1]);
    ExportedLineImports(lines[n - 1], n);
    assert ImportedLine(ex[n - 1], n) == Some(Reimported(lines[n - 1], n));
  }

  /**
   * Export then import gives back every line in order, numbered 1..n, with
   * its kind spelled out, and with its heights, sill and flip preserved.
   */
  lemma {:induction false} ExportThenImport(lines: seq<Line>)
    ensures |ImportedLines(ExportedLines(lines))| == |lines|
    ensures forall k :: 0 <= k < |lines| ==> ImportedLines(ExportedLines(lines))[k] == Reimported(lines[k], k + 1)
  {
    if lines != [] {
      var prefix := lines[..|lines| - 1];
      ExportThenImport(prefix);
      ExportThenImportStep(lines);
      assert forall k :: 0 <= k < |prefix| ==> prefix[k] == lines[k];
    } else {
      assert ExportedLines(lines) == [];
    }
  }

  /** The exported document is accepted by import, and its items are the exported lines. */
  lemma ExportedDocumentImports(lines: seq<Line>, settings: map<string, Json>)
    ensures ImportItems(ExportToJson(lines, settings)) == Some(ExportedLines(lines))
  {
  }
}
