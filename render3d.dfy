/**
 * The computations behind the 3D view: the scene settings and their
 * defaults, the openings on a wall in order along it, the solid blocks a
 * wall is cut into around its openings, and the walk-mode collision test.
 */
module Render3D {
  import opened Wrappers
  import opened JsValues
  import opened Plan
  import opened Geometry
  import opened Utils
  import Render2D

  // ------------------------------------------------------------------
  // Settings
  // ------------------------------------------------------------------

  const DefaultWallThickness: real := 6.0
  const DefaultCeilingInches: real := 96.0

  /** The wall thickness: the parsed field when finite and positive, else 6. */
  function WallThicknessSetting(parsed: Number): (t: real)
    ensures t > 0.0
    ensures parsed.Finite? && parsed.value > 0.0 ==> t == parsed.value
    ensures !(parsed.Finite? && parsed.value > 0.0) ==> t == DefaultWallThickness
  {
    if !parsed.Finite? || parsed.value <= 0.0 then DefaultWallThickness else parsed.value
  }

  /** The ceiling height: the parsed length when it is positive, else 96. */
  function CeilingSetting(input: string): (c: real)
    ensures c > 0.0
    ensures c == DefaultCeilingInches || ParseLengthToInches(input) == Some(c)
    ensures (ParseLengthToInches(input).None? || ParseLengthToInches(input) == Some(0.0)) ==> c == DefaultCeilingInches
  {
    var parsed := ParseLengthToInches(input);
    // `parseLengthToInches(...) || 96`: a missing or zero result is falsy
    var c := if parsed.Some? && parsed.value != 0.0 then parsed.value else DefaultCeilingInches;
    if c <= 0.0 then DefaultCeilingInches else c
  }

  /** A trim size: the parsed length when it is positive, else 0. */
  function TrimSetting(input: string): (t: real)
    ensures t >= 0.0
    ensures t == 0.0 || ParseLengthToInches(input) == Some(t)
    ensures (ParseLengthToInches(input).Some? && ParseLengthToInches(input).value > 0.0) ==>
              t == ParseLengthToInches(input).value
  {
    var parsed := ParseLengthToInches(input);
    if parsed.None? || parsed.value == 0.0 || parsed.value < 0.0 then 0.0 else parsed.value
  }

  datatype Settings = Settings(wallThickness: real, ceilingInches: real, doorTrim: real, windowTrim: real)

  /** The settings read from the four fields of the 3D panel. */
  function SettingsOf(thickness: Number, ceiling: string, doorTrim: string, windowTrim: string): (s: Settings)
    ensures s.wallThickness > 0.0 && s.ceilingInches > 0.0 && s.doorTrim >= 0.0 && s.windowTrim >= 0.0
  {
    Settings(WallThicknessSetting(thickness), CeilingSetting(ceiling), TrimSetting(doorTrim), TrimSetting(windowTrim))
  }

  /**
   * An opening's height: its own when present and non-zero (the source's
   * `heightInches || default`), else 80 for a door and 48 for a window.
   */
  function ElementHeight(el: Line): (h: real)
    ensures el.heightInches.Some? && el.heightInches.value != 0.0 ==> h == el.heightInches.value
    ensures !(el.heightInches.Some? && el.heightInches.value != 0.0) ==>
              h == (if LineKind(el) == Door then 80.0 else 48.0)
  {
    if el.heightInches.Some? && el.heightInches.value != 0.0 then el.heightInches.value
    else if LineKind(el) == Door then 80.0 else 48.0
  }

  /** An opening's sill: its own when present (even 0), else 0 for a door and 36 for a window. */
  function ElementBase(el: Line): (b: real)
    ensures el.baseOffsetInches.Some? ==> b == el.baseOffsetInches.value
    ensures el.baseOffsetInches.None? ==> b == (if LineKind(el) == Door then 0.0 else 36.0)
  {
    if el.baseOffsetInches.Some? then el.baseOffsetInches.value
    else if LineKind(el) == Door then 0.0 else 36.0
  }

  // ------------------------------------------------------------------
  // Openings on a wall, in order along it
  // ------------------------------------------------------------------

  predicate SortedByStart(ps: seq<Render2D.Placement>)
  {
    forall i, j :: 0 <= i < j < |ps| ==> ps[i].tStart <= ps[j].tStart
  }

  /** `p` inserted into sorted `ps` after every placement starting no later than it. */
  function InsertByStart(ps: seq<Render2D.Placement>, p: Render2D.Placement): (r: seq<Render2D.Placement>)
    requires SortedByStart(ps)
    ensures SortedByStart(r)
    ensures multiset(r) == multiset(ps) + multiset{p}
    ensures forall q :: q in r ==> q in ps || q == p
  {
    if ps == [] then [p]
    else
      var last := ps[|ps| - 1];
      if last.tStart <= p.tStart then
        assert forall i :: 0 <= i < |ps| ==> ps[i].tStart <= p.tStart;
        AppendSorted(ps, p);
        ps + [p]
      else
        var front := ps[..|ps| - 1];
        assert ps == front + [last];
        var ins := InsertByStart(front, p);
        assert forall i :: 0 <= i < |ins| ==> ins[i].tStart <= last.tStart by {
          forall i | 0 <= i < |ins|
            ensures ins[i].tStart <= last.tStart
          {
            assert ins[i] in ins;
          }
        }
        AppendSorted(ins, last);
        ins + [last]
  }

  /** An entry no earlier than every entry of a sorted list can go at its end. */
  lemma AppendSorted(ps: seq<Render2D.Placement>, p: Render2D.Placement)
    requires SortedByStart(ps)
    requires forall i :: 0 <= i < |ps| ==> ps[i].tStart <= p.tStart
    ensures SortedByStart(ps + [p])
  {
    var r := ps + [p];
    forall i, j | 0 <= i < j < |r|
      ensures r[i].tStart <= r[j].tStart
    {
      assert r[i] == ps[i];
      if j < |ps| {
        assert r[j] == ps[j];
      }
    }
  }

  /** The sort by `tStart` of `elementsOnWall.sort(...)`. */
  function SortByStart(ps: seq<Render2D.Placement>): (r: seq<Render2D.Placement>)
    ensures SortedByStart(r)
    ensures multiset(r) == multiset(ps)
  {
    if ps == [] then []
    else
      assert ps == ps[..|ps| - 1] + [ps[|ps| - 1]];
      InsertByStart(SortByStart(ps[..|ps| - 1]), ps[|ps| - 1])
  }

  /** Sorting placements already in order leaves them as they are. */
  lemma {:induction false} SortKeepsSorted(ps: seq<Render2D.Placement>)
    requires SortedByStart(ps)
    ensures SortByStart(ps) == ps
  {
    if ps != [] {
      var front := ps[..|ps| - 1];
      assert SortedByStart(front);
      SortKeepsSorted(front);
      if |front| > 0 {
        assert front[|front| - 1].tStart <= ps[|ps| - 1].tStart;
      }
      assert front + [ps[|ps| - 1]] == ps;
    }
  }

  /** The placements of `ps` that start exactly at `x`, in their order in `ps`. */
  function StartingAt(ps: seq<Render2D.Placement>, x: real): (r: seq<Render2D.Placement>)
    ensures forall q :: q in r ==> q in ps && q.tStart == x
  {
    if ps == [] then []
    else StartingAt(ps[..|ps| - 1], x) + (if ps[|ps| - 1].tStart == x then [ps[|ps| - 1]] else [])
  }

  lemma {:induction false} StartingAtAppend(a: seq<Render2D.Placement>, b: seq<Render2D.Placement>, x: real)
    ensures StartingAt(a + b, x) == StartingAt(a, x) + StartingAt(b, x)
  {
    if b != [] {
      var front := b[..|b| - 1];
      assert (a + b)[..|a + b| - 1] == a + front;
      assert (a + b)[|a + b| - 1] == b[|b| - 1];
      StartingAtAppend(a, front, x);
    } else {
      assert a + b == a;
    }
  }

  /** Inserting `p` puts it after every placement that starts where it does. */
  lemma {:induction false} InsertKeepsTies(ps: seq<Render2D.Placement>, p: Render2D.Placement, x: real)
    requires SortedByStart(ps)
    ensures StartingAt(InsertByStart(ps, p), x) == StartingAt(ps, x) + StartingAt([p], x)
  {
    if ps != [] {
      var last := ps[|ps| - 1];
      var front := ps[..|ps| - 1];
      if last.tStart <= p.tStart {
        StartingAtAppend(ps, [p], x);
      } else {
        assert ps == front + [last];
        assert SortedByStart(front);
        InsertKeepsTies(front, p, x);
        TieAfterLater(front, last, InsertByStart(front, p), p, x);
      }
    }
  }

  /** The step of the insertion that moves `p` in front of a later-starting `last`. */
  lemma TieAfterLater(front: seq<Render2D.Placement>, last: Render2D.Placement, ins: seq<Render2D.Placement>,
                      p: Render2D.Placement, x: real)
    requires p.tStart < last.tStart
    requires StartingAt(ins, x) == StartingAt(front, x) + StartingAt([p], x)
    ensures StartingAt(ins + [last], x) == StartingAt(front + [last], x) + StartingAt([p], x)
  {
    StartingAtAppend(ins, [last], x);
    StartingAtAppend(front, [last], x);
    TiesOfOne(last, x);
    TiesOfOne(p, x);
    SwapAroundEmpty(StartingAt(front, x), StartingAt([p], x), StartingAt([last], x));
  }

  lemma SwapAroundEmpty(a: seq<Render2D.Placement>, b: seq<Render2D.Placement>, c: seq<Render2D.Placement>)
    requires b == [] || c == []
    ensures a + b + c == a + c + b
  {
    if b == [] {
      assert a + b == a && a + c + b == a + c;
    } else {
      assert a + c == a && a + b + c == a + b;
    }
  }

  lemma TiesOfOne(p: Render2D.Placement, x: real)
    ensures StartingAt([p], x) == (if p.tStart == x then [p] else [])
  {
    assert [p][..0] == [];
  }

  /**
   * The sort is stable: the placements that start at the same point come out
   * in the order they went in, as `Array.prototype.sort` promises.
   */
  lemma {:induction false} SortIsStable(ps: seq<Render2D.Placement>, x: real)
    ensures StartingAt(SortByStart(ps), x) == StartingAt(ps, x)
  {
    if ps != [] {
      var front := ps[..|ps| - 1];
      var p := ps[|ps| - 1];
      SortIsStable(front, x);
      InsertKeepsTies(SortByStart(front), p, x);
      TiesOfOne(p, x);
    }
  }

  /**
   * `getElementsOnWall` of the 3D view: the openings the 2D view finds on
   * the wall, sorted by where they start.
   */
  method ElementsOnWall(sqrt: real -> real, wall: Line, lines: seq<Line>) returns (r: seq<Render2D.Placement>)
    ensures r == SortByStart(Render2D.PlacementsOnWall(sqrt, wall, lines))
  {
    r := Render2D.ElementsOnWall(sqrt, wall, lines);
    r := SortByStart(r);
  }

  /**
   * The sorted openings: none for a zero-length wall; otherwise in ascending
   * order of `tStart`, each a door or window of the plan with `tStart <= tEnd`,
   * and exactly the openings the 2D view places on the wall.
   */
  lemma SortedOpenings(sqrt: real -> real, wall: Line, lines: seq<Line>)
    ensures var r := SortByStart(Render2D.PlacementsOnWall(sqrt, wall, lines));
            (LineLength(sqrt, wall) == 0.0 ==> r == []) && SortedByStart(r) &&
            (forall e :: e in r <==> e in Render2D.PlacementsOnWall(sqrt, wall, lines)) &&
            (forall e :: e in r ==> e.element in lines && LineKind(e.element) != Wall && e.tStart <= e.tEnd)
  {
    var ps := Render2D.PlacementsOnWall(sqrt, wall, lines);
    var r := SortByStart(ps);
    assert forall e :: e in r <==> e in multiset(r);
    assert forall e :: e in ps <==> e in multiset(ps);
  }

  // ------------------------------------------------------------------
  // Cutting a wall around its openings
  // ------------------------------------------------------------------

  /** An opening's span along the wall and its vertical extent. */
  datatype Opening = Opening(tStart: real, tEnd: real, base: real, height: real)

  function Top(o: Opening): real
  {
    o.base + o.height
  }

  function OpeningOf(p: Render2D.Placement): Opening
  {
    Opening(p.tStart, p.tEnd, ElementBase(p.element), ElementHeight(p.element))
  }

  function Openings(ps: seq<Render2D.Placement>): (os: seq<Opening>)
    ensures |os| == |ps| && forall i :: 0 <= i < |ps| ==> os[i] == OpeningOf(ps[i])
  {
    seq(|ps|, i requires 0 <= i < |ps| => OpeningOf(ps[i]))
  }

  /** A solid box of wall: `[from, to]` along the wall, `[bottom, top]` in height. */
  datatype Block = Block(from: real, to: real, bottom: real, top: real)

  /**
   * The blocks emitted for one opening when the wall has been built up to
   * `currentT`: a full-height block up to the opening when the gap exceeds 1,
   * a block above it when it ends more than 1 below the ceiling, and a block
   * below it when its sill is higher than 1.
   */
  function OpeningBlocks(o: Opening, currentT: real, ceiling: real): seq<Block>
  {
    (if o.tStart > currentT + 1.0 then [Block(currentT, o.tStart, 0.0, ceiling)] else []) +
    (if Top(o) < ceiling - 1.0 then [Block(o.tStart, o.tEnd, Top(o), ceiling)] else []) +
    (if o.base > 1.0 then [Block(o.tStart, o.tEnd, 0.0, o.base)] else [])
  }

  /** Where the wall has been built up to after `os`: the last opening's end. */
  function Reached(os: seq<Opening>): real
  {
    if os == [] then 0.0 else os[|os| - 1].tEnd
  }

  function BlocksThrough(os: seq<Opening>, ceiling: real): seq<Block>
  {
    if os == [] then []
    else
      var front := os[..|os| - 1];
      BlocksThrough(front, ceiling) + OpeningBlocks(os[|os| - 1], Reached(front), ceiling)
  }

  /** The full-height block after the last opening, when more than 1 of wall remains. */
  function TrailingBlock(currentT: real, length: real, ceiling: real): seq<Block>
  {
    if currentT < length - 1.0 then [Block(currentT, length, 0.0, ceiling)] else []
  }

  /** The blocks of a wall of `length` with the openings `os` in order. */
  function WallBlocks(os: seq<Opening>, length: real, ceiling: real): (r: seq<Block>)
    ensures os == [] ==> r == [Block(0.0, length, 0.0, ceiling)]
  {
    if os == [] then [Block(0.0, length, 0.0, ceiling)]
    else BlocksThrough(os, ceiling) + TrailingBlock(Reached(os), length, ceiling)
  }

  /** The door openings among `ps`, in order: what a wall's collider lets the walker through. */
  function DoorOpenings(ps: seq<Render2D.Placement>): (r: seq<Opening>)
    ensures forall o :: o in r ==> exists p :: p in ps && LineKind(p.element) == Door && o == OpeningOf(p)
    ensures forall p :: p in ps && LineKind(p.element) == Door ==> OpeningOf(p) in r
  {
    if ps == [] then []
    else
      var front := ps[..|ps| - 1];
      var p := ps[|ps| - 1];
      assert forall q :: q in ps ==> q in front || q == p;
      DoorOpenings(front) + if LineKind(p.element) == Door then [OpeningOf(p)] else []
  }

  lemma CutStep(ps: seq<Render2D.Placement>, k: int, ceiling: real)
    requires 0 <= k < |ps|
    ensures Openings(ps[..k + 1]) == Openings(ps[..k]) + [OpeningOf(ps[k])]
    ensures Openings(ps[..k + 1])[..k] == Openings(ps[..k])
    ensures BlocksThrough(Openings(ps[..k + 1]), ceiling) ==
            BlocksThrough(Openings(ps[..k]), ceiling) + OpeningBlocks(OpeningOf(ps[k]), Reached(Openings(ps[..k])), ceiling)
    ensures Reached(Openings(ps[..k + 1])) == ps[k].tEnd
    ensures DoorOpenings(ps[..k + 1]) ==
            DoorOpenings(ps[..k]) + if LineKind(ps[k].element) == Door then [OpeningOf(ps[k])] else []
  {
    assert ps[..k + 1][..k] == ps[..k];
  }

  /** The blocks one pass of the opening loop adds: before, above and below the opening. */
  method BlocksAround(o: Opening, currentT: real, ceiling: real) returns (blocks: seq<Block>)
    ensures blocks == OpeningBlocks(o, currentT, ceiling)
  {
    blocks := [];
    if o.tStart > currentT + 1.0 {
      blocks := blocks + [Block(currentT, o.tStart, 0.0, ceiling)];
    }
    var topOfOpening := o.base + o.height;
    if topOfOpening < ceiling - 1.0 {
      blocks := blocks + [Block(o.tStart, o.tEnd, topOfOpening, ceiling)];
    }
    if o.base > 1.0 {
      blocks := blocks + [Block(o.tStart, o.tEnd, 0.0, o.base)];
    }
  }

  /**
   * The loop over a wall's sorted openings in `generate3DScene`: it records
   * the door openings for the wall's collider and cuts the wall into blocks.
   */
  method CutWall(ps: seq<Render2D.Placement>, length: real, ceiling: real) returns (blocks: seq<Block>, doors: seq<Opening>)
    ensures blocks == WallBlocks(Openings(ps), length, ceiling)
    ensures doors == DoorOpenings(ps)
  {
    doors := [];
    if |ps| == 0 {
      return [Block(0.0, length, 0.0, ceiling)], doors;
    }
    blocks := [];
    var currentT := 0.0;
    for k := 0 to |ps|
      invariant blocks == BlocksThrough(Openings(ps[..k]), ceiling)
      invariant currentT == Reached(Openings(ps[..k]))
      invariant doors == DoorOpenings(ps[..k])
    {
      CutStep(ps, k, ceiling);
      var elem := ps[k];
      var elHeight := ElementHeight(elem.element);
      var elBaseOffset := ElementBase(elem.element);
      if LineKind(elem.element) == Door {
        doors := doors + [Opening(elem.tStart, elem.tEnd, elBaseOffset, elHeight)];
      }
      var around := BlocksAround(Opening(elem.tStart, elem.tEnd, elBaseOffset, elHeight), currentT, ceiling);
      blocks := blocks + around;
      currentT := elem.tEnd;
    }
    assert ps[..|ps|] == ps;
    if currentT < length - 1.0 {
      blocks := blocks + [Block(currentT, length, 0.0, ceiling)];
    }
  }

  /** Openings in order along the wall that do not overlap: each ends before any later one starts. */
  predicate Ordered(os: seq<Opening>)
  {
    (forall i :: 0 <= i < |os| ==> os[i].tStart <= os[i].tEnd) &&
    (forall i, j :: 0 <= i < j < |os| ==> os[i].tEnd <= os[j].tStart)
  }

  /** The open rectangles of a block and an opening meet. */
  predicate Overlaps(b: Block, o: Opening)
  {
    b.from < o.tEnd && o.tStart < b.to && b.bottom < Top(o) && o.base < b.top
  }

  lemma OrderedPrefix(os: seq<Opening>)
    requires Ordered(os) && os != []
    ensures Ordered(os[..|os| - 1])
    ensures forall o :: o in os[..|os| - 1] ==> o.tEnd <= os[|os| - 1].tStart
  {
    forall o | o in os[..|os| - 1]
      ensures o.tEnd <= os[|os| - 1].tStart
    {
      var i :| 0 <= i < |os| - 1 && os[..|os| - 1][i] == o;
    }
  }

  /** Every opening so far ends by where the wall has been built to. */
  lemma {:induction false} ReachedBound(os: seq<Opening>)
    requires Ordered(os)
    ensures forall o :: o in os ==> o.tEnd <= Reached(os)
    ensures os != [] ==> Reached(os) >= os[0].tStart
  {
    if os != [] {
      var last := os[|os| - 1];
      forall o | o in os
        ensures o.tEnd <= Reached(os)
      {
        var i :| 0 <= i < |os| && os[i] == o;
        if i < |os| - 1 {
          assert os[i].tEnd <= last.tStart;
        }
      }
      assert os[0].tStart <= os[0].tEnd;
    }
  }

  /** Every block so far ends by where the wall has been built to. */
  lemma {:induction false} BlocksEndByReached(os: seq<Opening>, ceiling: real)
    requires Ordered(os)
    ensures forall b :: b in BlocksThrough(os, ceiling) ==> b.to <= Reached(os)
  {
    if os != [] {
      var front := os[..|os| - 1];
      OrderedPrefix(os);
      BlocksEndByReached(front, ceiling);
      ReachedBound(front);
      var last := os[|os| - 1];
      if front != [] {
        assert front[|front| - 1] in front;
        assert Reached(front) <= last.tStart;
      }
      assert forall b :: b in OpeningBlocks(last, Reached(front), ceiling) ==> b.to <= last.tEnd;
    }
  }

  /** The blocks for the last opening meet none of the openings. */
  lemma LastBlocksClear(os: seq<Opening>, ceiling: real)
    requires Ordered(os) && os != []
    ensures var front := os[..|os| - 1];
            forall b, o :: b in OpeningBlocks(os[|os| - 1], Reached(front), ceiling) && o in os ==> !Overlaps(b, o)
  {
    var front := os[..|os| - 1];
    var last := os[|os| - 1];
    OrderedPrefix(os);
    ReachedBound(front);
    assert os == front + [last];
    forall b, o | b in OpeningBlocks(last, Reached(front), ceiling) && o in os
      ensures !Overlaps(b, o)
    {
      if o in front {
        assert o.tEnd <= Reached(front) && o.tEnd <= last.tStart;
      } else {
        assert o == last;
      }
    }
  }

  /** The blocks for the openings so far meet none of them. */
  lemma {:induction false} BlocksThroughClear(os: seq<Opening>, ceiling: real)
    requires Ordered(os)
    ensures forall b, o :: b in BlocksThrough(os, ceiling) && o in os ==> !Overlaps(b, o)
  {
    if os != [] {
      var front := os[..|os| - 1];
      var last := os[|os| - 1];
      OrderedPrefix(os);
      BlocksThroughClear(front, ceiling);
      BlocksEndByReached(front, ceiling);
      LastBlocksClear(os, ceiling);
      assert os == front + [last];
      if front != [] {
        assert front[|front| - 1] in front;
        assert Reached(front) <= last.tStart;
      }
      forall b, o | b in BlocksThrough(front, ceiling) && o in os
        ensures !Overlaps(b, o)
      {
        if o == last {
          assert b.to <= last.tStart;
        }
      }
    }
  }

  /**
   * Cutting leaves every opening open: for openings in order along the wall,
   * no block meets the rectangle of any opening.
   */
  lemma BlocksLeaveOpeningsOpen(os: seq<Opening>, length: real, ceiling: real)
    requires Ordered(os)
    ensures forall b, o :: b in WallBlocks(os, length, ceiling) && o in os ==> !Overlaps(b, o)
  {
    if os != [] {
      BlocksThroughClear(os, ceiling);
      ReachedBound(os);
    }
  }

  /** Everything is inside the wall when its openings are. */
  predicate InsideWall(b: Block, length: real, ceiling: real)
  {
    0.0 <= b.from <= b.to <= length && 0.0 <= b.bottom <= b.top <= ceiling
  }

  predicate OpeningsInside(os: seq<Opening>, length: real, ceiling: real)
  {
    forall o :: o in os ==> 0.0 <= o.tStart && o.tEnd <= length && 0.0 <= o.base <= ceiling && o.height >= 0.0
  }

  lemma {:induction false} BlocksThroughInside(os: seq<Opening>, length: real, ceiling: real)
    requires Ordered(os) && OpeningsInside(os, length, ceiling)
    ensures Reached(os) >= 0.0
    ensures forall b :: b in BlocksThrough(os, ceiling) ==> InsideWall(b, length, ceiling)
  {
    if os != [] {
      var front := os[..|os| - 1];
      var last := os[|os| - 1];
      OrderedPrefix(os);
      assert os == front + [last];
      assert last in os;
      assert forall o :: o in front ==> o in os;
      BlocksThroughInside(front, length, ceiling);
      assert last.tStart <= last.tEnd;
      LastBlocksInside(last, Reached(front), length, ceiling);
    }
  }

  /** The blocks one opening adds lie within the wall when the opening does. */
  lemma LastBlocksInside(o: Opening, from: real, length: real, ceiling: real)
    requires 0.0 <= from && 0.0 <= o.tStart <= o.tEnd <= length
    requires 0.0 <= o.base <= ceiling && o.height >= 0.0
    ensures forall b :: b in OpeningBlocks(o, from, ceiling) ==> InsideWall(b, length, ceiling)
  {
  }

  /**
   * A wall whose openings lie within it, at most ceiling-high at the sill, is
   * cut into blocks that lie within the wall's length and height.
   */
  lemma BlocksInsideWall(os: seq<Opening>, length: real, ceiling: real)
    requires Ordered(os) && OpeningsInside(os, length, ceiling) && length >= 0.0 && ceiling >= 0.0
    ensures forall b :: b in WallBlocks(os, length, ceiling) ==> InsideWall(b, length, ceiling)
  {
    if os != [] {
      BlocksThroughInside(os, length, ceiling);
    }
  }

  // ------------------------------------------------------------------
  // Walk-mode collision
  // ------------------------------------------------------------------

  /** The walker's eye height and radius, in inches. */
  const EyeHeight: real := 72.0
  const WalkRadius: real := 10.0

  /**
   * A wall as the walker meets it: its start, unit direction, the unit
   * normal its thickness goes to, its length and thickness, and its doors.
   */
  datatype Collider = Collider(start: Point, u: Point, n: Point, length: real, thickness: real, openings: seq<Opening>)

  /** The position of `p` along the collider. */
  function AlongCollider(c: Collider, p: Point): real
  {
    (p.x - c.start.x) * c.u.x + (p.y - c.start.y) * c.u.y
  }

  /** The distance of `p` across the collider, measured along its normal. */
  function AcrossCollider(c: Collider, p: Point): real
  {
    Abs((p.x - c.start.x) * c.n.x + (p.y - c.start.y) * c.n.y)
  }

  /** The walker at position `t` along the wall fits through the opening at eye height. */
  predicate Admits(o: Opening, t: real)
  {
    t >= o.tStart - WalkRadius && t <= o.tEnd + WalkRadius && EyeHeight >= o.base && EyeHeight <= o.base + o.height
  }

  /**
   * The collider stops a walker at `p`: `p` lies within the radius of the
   * wall's extent, closer to it than half its thickness plus the radius, and
   * no opening lets the walker through there.
   */
  predicate Obstructs(c: Collider, p: Point)
  {
    var t := AlongCollider(c, p);
    !(t < -WalkRadius || t > c.length + WalkRadius) &&
    AcrossCollider(c, p) < c.thickness / 2.0 + WalkRadius &&
    forall o :: o in c.openings ==> !Admits(o, t)
  }

  /** `isPositionColliding(x, z)`: some wall stops a walker at `target`. */
  method IsPositionColliding(colliders: seq<Collider>, target: Point) returns (colliding: bool)
    ensures colliding <==> exists i :: 0 <= i < |colliders| && Obstructs(colliders[i], target)
  {
    for k := 0 to |colliders|
      invariant forall i :: 0 <= i < k ==> !Obstructs(colliders[i], target)
    {
      var wall := colliders[k];
      var relX := target.x - wall.start.x;
      var relZ := target.y - wall.start.y;
      var t := relX * wall.u.x + relZ * wall.u.y;
      assert t == AlongCollider(wall, target);
      if t < -WalkRadius || t > wall.length + WalkRadius {
        continue;
      }
      var dist := Abs(relX * wall.n.x + relZ * wall.n.y);
      var clearance := wall.thickness / 2.0 + WalkRadius;
      if dist >= clearance {
        continue;
      }
      var blocked := true;
      var m := 0;
      while m < |wall.openings|
        invariant 0 <= m <= |wall.openings|
        invariant forall j :: 0 <= j < m ==> !Admits(wall.openings[j], t)
      {
        var opening := wall.openings[m];
        if t >= opening.tStart - WalkRadius && t <= opening.tEnd + WalkRadius &&
           EyeHeight >= opening.base && EyeHeight <= opening.base + opening.height {
          blocked := false;
          break;
        }
        m := m + 1;
      }
      if blocked {
        assert forall o :: o in wall.openings ==> !Admits(o, t);
        return true;
      }
      assert wall.openings[m] in wall.openings;
    }
    return false;
  }

  /** Openings only ever let the walker through: adding one never makes a wall stop the walker. */
  lemma OpeningsOnlyAdmit(c: Collider, more: seq<Opening>, p: Point)
    ensures Obstructs(c.(openings := c.openings + more), p) ==> Obstructs(c, p)
  {
    var wider := c.(openings := c.openings + more);
    var t := AlongCollider(c, p);
    assert wider.start == c.start && wider.u == c.u && wider.n == c.n;
    assert AlongCollider(wider, p) == t && AcrossCollider(wider, p) == AcrossCollider(c, p);
    if Obstructs(wider, p) {
      forall o | o in c.openings
        ensures !Admits(o, t)
      {
        assert o in wider.openings;
      }
    }
  }

  /** A wall without doors stops a walker anywhere on its face. */
  lemma SolidWallStops(c: Collider, p: Point)
    requires c.openings == [] && c.thickness > 0.0 && c.length >= 0.0
    requires 0.0 <= AlongCollider(c, p) <= c.length && AcrossCollider(c, p) == 0.0
    ensures Obstructs(c, p)
  {
  }

  /**
   * The collider `generate3DScene` records for a wall of length at least 1:
   * it starts at the wall's start, runs along its unit direction, and is
   * thick on the side the 2D view draws the wall's thickness; its openings
   * are the wall's doors (windows never let the walker through).
   */
  function ColliderOf(sqrt: real -> real, lines: seq<Line>, wall: Line, thickness: real, centroid: Point): (c: Collider)
    requires LineLength(sqrt, wall) >= 1.0
    ensures c.length == LineLength(sqrt, wall) && c.thickness == thickness
    ensures c.n == Render2D.FacingNormal(sqrt, wall, centroid)
    ensures forall o :: o in c.openings ==>
              exists p :: p in Render2D.PlacementsOnWall(sqrt, wall, lines) && LineKind(p.element) == Door && o == OpeningOf(p)
  {
    var ps := SortByStart(Render2D.PlacementsOnWall(sqrt, wall, lines));
    SortedOpenings(sqrt, wall, lines);
    Collider(StartOf(wall), Render2D.UnitDirection(sqrt, wall), Render2D.FacingNormal(sqrt, wall, centroid),
             LineLength(sqrt, wall), thickness, DoorOpenings(ps))
  }

  // ------------------------------------------------------------------
  // The walls of the scene
  // ------------------------------------------------------------------

  /** A wall of the scene: the line, the blocks it is built of, and its collider. */
  datatype WallModel = WallModel(wall: Line, blocks: seq<Block>, collider: Collider)

  function WallModelOf(sqrt: real -> real, lines: seq<Line>, wall: Line, settings: Settings, centroid: Point): WallModel
    requires LineLength(sqrt, wall) >= 1.0
  {
    var ps := SortByStart(Render2D.PlacementsOnWall(sqrt, wall, lines));
    WallModel(wall, WallBlocks(Openings(ps), LineLength(sqrt, wall), settings.ceilingInches),
              ColliderOf(sqrt, lines, wall, settings.wallThickness, centroid))
  }

  /**
   * The walls built from `todo`, one per wall line of length at least 1 in
   * order; shorter lines are skipped.
   */
  function WallModels(sqrt: real -> real, todo: seq<Line>, lines: seq<Line>, settings: Settings, centroid: Point)
    : (r: seq<WallModel>)
    ensures |r| <= |todo|
    ensures forall m :: m in r ==>
              (m.wall in todo && LineKind(m.wall) == Wall && LineLength(sqrt, m.wall) >= 1.0 &&
               m == WallModelOf(sqrt, lines, m.wall, settings, centroid))
    ensures forall l :: l in todo && LineKind(l) == Wall && LineLength(sqrt, l) >= 1.0 ==>
              WallModelOf(sqrt, lines, l, settings, centroid) in r
  {
    if todo == [] then []
    else
      var front := todo[..|todo| - 1];
      var l := todo[|todo| - 1];
      assert forall q :: q in todo ==> q in front || q == l;
      WallModels(sqrt, front, lines, settings, centroid) +
      if LineKind(l) == Wall && LineLength(sqrt, l) >= 1.0 then [WallModelOf(sqrt, lines, l, settings, centroid)] else []
  }

  /** The body of the wall loop of `generate3DScene` for one wall of length at least 1. */
  method BuildWall(sqrt: real -> real, lines: seq<Line>, l: Line, settings: Settings, centroid: Point) returns (m: WallModel)
    requires LineLength(sqrt, l) >= 1.0
    ensures m == WallModelOf(sqrt, lines, l, settings, centroid)
  {
    var length := LineLength(sqrt, l);
    var u := Point((l.x2 - l.x1) / length, (l.y2 - l.y1) / length);
    var n := Render2D.FacingNormal(sqrt, l, centroid);
    var elementsOnWall := ElementsOnWall(sqrt, l, lines);
    var blocks, doors := CutWall(elementsOnWall, length, settings.ceilingInches);
    m := WallModel(l, blocks, Collider(StartOf(l), u, n, length, settings.wallThickness, doors));
  }

  /**
   * The walls of `generate3DScene`: every wall line of length at least 1,
   * cut around its openings, with its collider.
   */
  method BuildWalls(sqrt: real -> real, lines: seq<Line>, settings: Settings) returns (walls: seq<WallModel>)
    ensures walls == WallModels(sqrt, lines, lines, settings, Render2D.Centroid(lines))
  {
    var centroid := Render2D.WallCentroid(lines);
    walls := [];
    for k := 0 to |lines|
      invariant walls == WallModels(sqrt, lines[..k], lines, settings, centroid)
    {
      assert lines[..k + 1][..k] == lines[..k];
      var l := lines[k];
      var length := LineLength(sqrt, l);
      if length < 1.0 {
        continue;
      }
      if LineKind(l) == Wall {
        var m := BuildWall(sqrt, lines, l, settings, centroid);
        walls := walls + [m];
      }
    }
    assert lines[..|lines|] == lines;
  }

  /** The colliders of the scene's walls, in order: the `wallColliders` list. */
  function Colliders(walls: seq<WallModel>): (cs: seq<Collider>)
    ensures |cs| == |walls| && forall i :: 0 <= i < |walls| ==> cs[i] == walls[i].collider
  {
    seq(|walls|, i requires 0 <= i < |walls| => walls[i].collider)
  }

  /**
   * Each wall of the scene leaves its openings open: when its sorted openings
   * do not overlap, no block of the wall meets one of them.
   */
  lemma SceneLeavesOpeningsOpen(sqrt: real -> real, lines: seq<Line>, settings: Settings, m: WallModel)
    requires m in WallModels(sqrt, lines, lines, settings, Render2D.Centroid(lines))
    requires Ordered(Openings(SortByStart(Render2D.PlacementsOnWall(sqrt, m.wall, lines))))
    ensures forall b, o :: b in m.blocks && o in Openings(SortByStart(Render2D.PlacementsOnWall(sqrt, m.wall, lines))) ==>
              !Overlaps(b, o)
  {
    var os := Openings(SortByStart(Render2D.PlacementsOnWall(sqrt, m.wall, lines)));
    BlocksLeaveOpeningsOpen(os, LineLength(sqrt, m.wall), settings.ceilingInches);
  }
}
