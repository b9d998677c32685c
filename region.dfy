/**
 Capture regions and the two-box calibration. A region is `(x, y, w, h)`
 relative to the game window's top-left corner; a crop box is the
 `(left, top, right, bottom)` that PIL's `crop` takes. Calibration shows one
 snapshot of the window and turns the first two press-drag-release gestures
 into the indicator region and the name region.
 */
module Region {
  import opened Wrappers

  datatype Rect = Rect(x: int, y: int, w: int, h: int)
  datatype Box = Box(left: int, top: int, right: int, bottom: int)

  function Min(a: int, b: int): int { if a <= b then a else b }
  function Abs(a: int): nat { if a < 0 then -a else a }

  /** The crop box of a region, `(x, y, x + w, y + h)`. */
  function CropBox(r: Rect): (b: Box)
    ensures b.left == r.x && b.top == r.y
    ensures b.right - b.left == r.w && b.bottom - b.top == r.h
  {
    Box(r.x, r.y, r.x + r.w, r.y + r.h)
  }

  /** The region a crop box covers: the inverse of `CropBox`. */
  function RegionOf(b: Box): (r: Rect)
    ensures CropBox(r) == b
  {
    Rect(b.left, b.top, b.right - b.left, b.bottom - b.top)
  }

  /** No region is lost by the conversion: two regions with the same crop box are equal. */
  lemma CropBoxInjective(r: Rect, s: Rect)
    requires CropBox(r) == CropBox(s)
    ensures r == s
  {
    assert r == RegionOf(CropBox(r));
  }

  /**
   The crop a capture applies: none when no region is given, otherwise the
   region's crop box (a four-element tuple is always truthy in `if region:`).
   */
  function CropFor(region: Option<Rect>): (b: Option<Box>)
    ensures b.Some? <==> region.Some?
    ensures region.Some? ==> RegionOf(b.value) == region.value
  {
    match region
    case None => None
    case Some(r) => Some(CropBox(r))
  }

  /** `sorted([a, b])` for two integers. */
  function Sorted2(a: int, b: int): (int, int)
  {
    if a <= b then (a, b) else (b, a)
  }

  /**
   The box stored when a drag from `(sx, sy)` is released at `(ex, ey)`: the
   top-left corner is the smaller coordinate on each axis and the sides are the
   distances travelled, whatever the direction of the drag. A drag that does not
   move on an axis gives a zero side, which is stored as it is.
   */
  function Normalize(sx: int, sy: int, ex: int, ey: int): (r: Rect)
    ensures r.x == Min(sx, ex) && r.y == Min(sy, ey)
    ensures r.w == Abs(ex - sx) && r.h == Abs(ey - sy)
  {
    var (x1, x2) := Sorted2(sx, ex);
    var (y1, y2) := Sorted2(sy, ey);
    Rect(x1, y1, x2 - x1, y2 - y1)
  }

  /** Dragging the other way round stores the same box. */
  lemma NormalizeSymmetric(sx: int, sy: int, ex: int, ey: int)
    ensures Normalize(sx, sy, ex, ey) == Normalize(ex, ey, sx, sy)
  {
  }

  /** The stored box has the drag's two end points as opposite corners. */
  lemma NormalizeCorners(sx: int, sy: int, ex: int, ey: int)
    ensures var b := CropBox(Normalize(sx, sy, ex, ey));
      && {b.left, b.right} == {sx, ex} && {b.top, b.bottom} == {sy, ey}
      && b.left <= b.right && b.top <= b.bottom
  {
  }

  /** A pointer event on the calibration canvas; motion only redraws and is not modelled. */
  datatype PointerEvent = ButtonDown(x: int, y: int) | ButtonUp(x: int, y: int)

  /** The log lines calibration writes. */
  datatype CalibrationLog = CouldNotCapture | Calibrated(index: nat, box: Rect)

  /**
   The state of the calibration window: the drag start, `result`,
   `region_index` and whether the window is still open. Its handlers run only
   while the window exists.
   */
  class Calibrator {
    var startX: int
    var startY: int
    var result: seq<Option<Rect>>
    var regionIndex: nat
    var open: bool
    var log: seq<CalibrationLog>

    /** The first box is filled before the second; the window closes once both are. */
    ghost predicate Valid()
      reads this
    {
      && |result| == 2 && regionIndex <= 1
      && (regionIndex == 0 <==> result[0].None?)
      && (regionIndex == 0 ==> open)
      && (open <==> result[1].None?)
    }

    constructor ()
      ensures Valid() && open
      ensures startX == 0 && startY == 0
      ensures result == [None, None] && regionIndex == 0 && log == []
    {
      startX, startY := 0, 0;
      result := [None, None];
      regionIndex := 0;
      open := true;
      log := [];
    }

    /** `on_button_press`: remembers where the drag starts. */
    method ButtonPress(x: int, y: int)
      requires Valid() && open
      modifies this
      ensures Valid()
      ensures startX == x && startY == y
      ensures result == old(result) && regionIndex == old(regionIndex)
      ensures open == old(open) && log == old(log)
    {
      startX, startY := x, y;
    }

    /**
     `on_button_release`: normalises the drag into a box and stores it at
     `region_index`. The first release fills box 1 and moves on to box 2; the
     second fills box 2, leaves box 1 as it was and closes the window.
     */
    method ButtonRelease(x: int, y: int)
      requires Valid() && open
      modifies this
      ensures Valid()
      ensures var box := Normalize(old(startX), old(startY), x, y);
        && log == old(log) + [Calibrated(old(regionIndex) + 1, box)]
        && (old(regionIndex) == 0 ==> result == [Some(box), None] && regionIndex == 1 && open)
        && (old(regionIndex) == 1 ==> result == [old(result[0]), Some(box)] && regionIndex == 1 && !open)
      ensures startX == old(startX) && startY == old(startY)
    {
      var box := Normalize(startX, startY, x, y);
      var idx := regionIndex;
      result := result[idx := Some(box)];
      log := log + [Calibrated(idx + 1, box)];
      if idx == 1 {
        open := false;
      } else {
        regionIndex := regionIndex + 1;
      }
    }
  }

  /**
   The boxes a stream of pointer events draws: each release closes a box from
   the latest press (or from `(sx, sy)`, the initial `0, 0`, before any press).
   */
  function Boxes(sx: int, sy: int, events: seq<PointerEvent>): (r: seq<Rect>)
    ensures |r| <= |events|
    decreases |events|
  {
    if events == [] then []
    else match events[0]
      case ButtonDown(x, y) => Boxes(x, y, events[1..])
      case ButtonUp(x, y) => [Normalize(sx, sy, x, y)] + Boxes(sx, sy, events[1..])
  }

  /** The number of releases in a stream of pointer events. */
  function Releases(events: seq<PointerEvent>): nat
    decreases |events|
  {
    if events == [] then 0
    else (if events[0].ButtonUp? then 1 else 0) + Releases(events[1..])
  }

  /** Where the latest press in `events` happened, or `(sx, sy)` if there was none. */
  function LatestPress(sx: int, sy: int, events: seq<PointerEvent>): (int, int)
    decreases |events|
  {
    if events == [] then (sx, sy)
    else match events[|events| - 1]
      case ButtonDown(x, y) => (x, y)
      case ButtonUp(_, _) => LatestPress(sx, sy, events[..|events| - 1])
  }

  /** A press at the head of the stream is the starting point for every later release. */
  lemma {:induction false} LatestPressAfterDown(sx: int, sy: int, x: int, y: int, rest: seq<PointerEvent>)
    ensures LatestPress(sx, sy, [ButtonDown(x, y)] + rest) == LatestPress(x, y, rest)
    decreases |rest|
  {
    var ev := [ButtonDown(x, y)] + rest;
    if rest != [] {
      assert ev[|ev| - 1] == rest[|rest| - 1];
      assert ev[..|ev| - 1] == [ButtonDown(x, y)] + rest[..|rest| - 1];
      LatestPressAfterDown(sx, sy, x, y, rest[..|rest| - 1]);
    }
  }

  /** A release at the head of the stream does not move the starting point. */
  lemma {:induction false} LatestPressAfterUp(sx: int, sy: int, x: int, y: int, rest: seq<PointerEvent>)
    ensures LatestPress(sx, sy, [ButtonUp(x, y)] + rest) == LatestPress(sx, sy, rest)
    decreases |rest|
  {
    var ev := [ButtonUp(x, y)] + rest;
    if rest == [] {
      assert ev[..|ev| - 1] == [];
    } else {
      assert ev[|ev| - 1] == rest[|rest| - 1];
      assert ev[..|ev| - 1] == [ButtonUp(x, y)] + rest[..|rest| - 1];
      LatestPressAfterUp(sx, sy, x, y, rest[..|rest| - 1]);
    }
  }

  /**
   Calibration draws exactly one box per release, and the box of the release
   at position `j` (the `Releases(events[..j])`-th release counting from 0)
   spans from the latest press before it, or from `(sx, sy)`, to the release.
   */
  lemma {:induction false} BoxesPerRelease(sx: int, sy: int, events: seq<PointerEvent>)
    ensures |Boxes(sx, sy, events)| == Releases(events)
    ensures forall j :: 0 <= j < |events| && events[j].ButtonUp? ==>
      Releases(events[..j]) < |Boxes(sx, sy, events)|
      && Boxes(sx, sy, events)[Releases(events[..j])]
         == Normalize(LatestPress(sx, sy, events[..j]).0, LatestPress(sx, sy, events[..j]).1, events[j].x, events[j].y)
    decreases |events|
  {
    if events != [] {
      var rest := events[1..];
      match events[0] {
        case ButtonDown(x, y) =>
          BoxesPerRelease(x, y, rest);
          forall j | 0 <= j < |events| && events[j].ButtonUp?
            ensures Releases(events[..j]) < |Boxes(sx, sy, events)|
            ensures Boxes(sx, sy, events)[Releases(events[..j])]
              == Normalize(LatestPress(sx, sy, events[..j]).0, LatestPress(sx, sy, events[..j]).1, events[j].x, events[j].y)
          {
            assert j > 0;
            assert events[..j] == [events[0]] + rest[..j - 1];
            assert events[..j][1..] == rest[..j - 1];
            assert Releases(events[..j]) == Releases(rest[..j - 1]);
            LatestPressAfterDown(sx, sy, x, y, rest[..j - 1]);
            assert rest[j - 1] == events[j];
          }
        case ButtonUp(x, y) =>
          BoxesPerRelease(sx, sy, rest);
          forall j | 0 <= j < |events| && events[j].ButtonUp?
            ensures Releases(events[..j]) < |Boxes(sx, sy, events)|
            ensures Boxes(sx, sy, events)[Releases(events[..j])]
              == Normalize(LatestPress(sx, sy, events[..j]).0, LatestPress(sx, sy, events[..j]).1, events[j].x, events[j].y)
          {
            if j > 0 {
              assert events[..j] == [events[0]] + rest[..j - 1];
              assert events[..j][1..] == rest[..j - 1];
              assert Releases(events[..j]) == 1 + Releases(rest[..j - 1]);
              LatestPressAfterUp(sx, sy, x, y, rest[..j - 1]);
              assert rest[j - 1] == events[j];
            } else {
              assert events[..j] == [];
            }
          }
      }
    }
  }

  /** The log lines for the boxes calibrated so far. */
  function CalibratedLog(boxes: seq<Rect>): (r: seq<CalibrationLog>)
    ensures |r| == |boxes|
    ensures forall k :: 0 <= k < |boxes| ==> r[k] == Calibrated(k + 1, boxes[k])
  {
    seq(|boxes|, k requires 0 <= k < |boxes| => Calibrated(k + 1, boxes[k]))
  }

  /**
   `calibrate_two_regions`: with no snapshot it logs the failure and returns
   no boxes; otherwise the first and second box drawn become the two regions
   (either is `None` if it was never drawn), and later gestures are not seen,
   because the window is gone.
   */
  method CalibrateTwoRegions(captured: bool, events: seq<PointerEvent>)
    returns (indicator: Option<Rect>, name: Option<Rect>, log: seq<CalibrationLog>)
    ensures !captured ==> indicator == None && name == None && log == [CouldNotCapture]
    ensures captured ==> var boxes := Boxes(0, 0, events);
      && indicator == (if |boxes| >= 1 then Some(boxes[0]) else None)
      && name == (if |boxes| >= 2 then Some(boxes[1]) else None)
      && log == CalibratedLog(boxes[..if |boxes| < 2 then |boxes| else 2])
  {
    if !captured {
      return None, None, [CouldNotCapture];
    }
    var cal := new Calibrator();
    var i := 0;
    ghost var done: seq<Rect> := [];
    while i < |events| && cal.open
      invariant 0 <= i <= |events|
      invariant cal.Valid()
      invariant Boxes(0, 0, events) == done + Boxes(cal.startX, cal.startY, events[i..])
      invariant |done| <= 2 && cal.open == (|done| < 2)
      invariant cal.regionIndex == (if done == [] then 0 else 1)
      invariant |done| >= 1 ==> cal.result[0] == Some(done[0])
      invariant |done| == 2 ==> cal.result[1] == Some(done[1])
      invariant cal.log == CalibratedLog(done)
    {
      assert events[i..][1..] == events[i + 1..];
      match events[i] {
        case ButtonDown(x, y) =>
          cal.ButtonPress(x, y);
        case ButtonUp(x, y) =>
          ghost var box := Normalize(cal.startX, cal.startY, x, y);
          cal.ButtonRelease(x, y);
          done := done + [box];
      }
      i := i + 1;
    }
    ghost var boxes := Boxes(0, 0, events);
    assert boxes[..|done|] == done;
    indicator, name, log := cal.result[0], cal.result[1], cal.log;
  }
}
