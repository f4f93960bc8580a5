/**
 * Calibration-point collection (`get_map.py`): the operator clicks the four
 * corners of the physical map in the camera image, in the order top-left,
 * top-right, bottom-left, bottom-right. Clicks fill a four-slot array under
 * a counter; once all four are in, every frame is warped onto the map
 * rectangle and the four points are written to the calibration file. The
 * "r" key clears the array.
 */
module Calibration {
  import opened Wrappers
  import opened Geometry

  /** Size of the map rectangle that the calibrated quadrilateral is warped onto. */
  const MapWidth: int := 1920
  const MapHeight: int := 1080

  /** The number of calibration slots. */
  const Slots: nat := 4

  const Origin: Point := Point(0, 0)

  /** The four slots and how many of them the operator has filled. */
  datatype Calib = Calib(points: seq<Point>, counter: nat)

  predicate Valid(c: Calib) {
    |c.points| == Slots && c.counter <= Slots
  }

  /** The cleared state: every slot at the origin and nothing recorded. */
  function Cleared(): (c: Calib)
    ensures Valid(c) && c.counter == 0
    ensures forall i :: 0 <= i < Slots ==> c.points[i] == Origin
  {
    Calib([Origin, Origin, Origin, Origin], 0)
  }

  /**
   * A left click at `p`: stored in the next free slot while fewer than four
   * are filled, and ignored once all four are.
   */
  function Record(c: Calib, p: Point): (r: Calib)
    requires Valid(c)
    ensures Valid(r)
    ensures c.counter < Slots ==> && r.counter == c.counter + 1
                                   && r.points[c.counter] == p
                                   && (forall i :: 0 <= i < Slots && i != c.counter ==> r.points[i] == c.points[i])
    ensures c.counter == Slots ==> r == c
  {
    if c.counter < Slots then Calib(c.points[c.counter := p], c.counter + 1) else c
  }

  /** The "r" key: back to the cleared state, whatever was recorded. */
  function Reset(c: Calib): (r: Calib)
    ensures Valid(r) && r.counter == 0
    ensures forall i :: 0 <= i < Slots ==> r.points[i] == Origin
  {
    Cleared()
  }

  /**
   * The destination rectangle's corners in the order the clicks are made:
   * the first two share the top edge, the first and third share the left
   * edge, and the last is the far corner `(w, h)`.
   */
  function DestinationCorners(w: int, h: int): (corners: seq<Point>)
    ensures |corners| == Slots
    ensures corners[0] == Origin && corners[3] == Point(w, h)
    ensures corners[0].y == corners[1].y && corners[2].y == corners[3].y
    ensures corners[0].x == corners[2].x && corners[1].x == corners[3].x
    ensures w > 0 && h > 0 ==> corners[0].x < corners[1].x && corners[0].y < corners[2].y
  {
    [Point(0, 0), Point(w, 0), Point(0, h), Point(w, h)]
  }

  /** What one frame of the calibration window shows. */
  datatype Display =
    | ShowOriginal(marked: seq<Point>)
      /** The frame warped by the transform taking `sources[i]` to `targets[i]`. */
    | ShowWarped(marked: seq<Point>, sources: seq<Point>, targets: seq<Point>)

  /** A frame's display and the calibration file afterwards (`None` while it has never been written). */
  datatype FrameResult = FrameResult(display: Display, file: Option<seq<Point>>)

  /**
   * One frame: the recorded points are marked; below four points only the
   * camera image is shown and nothing is written; at four the image is
   * warped with click `i` sent to destination corner `i` and the points are
   * saved.
   */
  function Frame(c: Calib, file: Option<seq<Point>>): (r: FrameResult)
    requires Valid(c)
    ensures r.display.marked == c.points[..c.counter]
    ensures c.counter < Slots ==> r.display.ShowOriginal? && r.file == file
    ensures c.counter == Slots ==> && r.display.ShowWarped?
                                   && r.display.sources == c.points
                                   && r.display.targets == DestinationCorners(MapWidth, MapHeight)
                                   && r.file == Some(c.points)
  {
    var marked := c.points[..c.counter];
    if c.counter < Slots then FrameResult(ShowOriginal(marked), file)
    else FrameResult(ShowWarped(marked, c.points, DestinationCorners(MapWidth, MapHeight)), Some(c.points))
  }

  // ---------------------------------------------------------------------------
  // Whole sessions

  datatype Event = Click(p: Point) | ResetKey

  function Step(c: Calib, e: Event): (r: Calib)
    requires Valid(c)
    ensures Valid(r)
  {
    match e
    case Click(p) => Record(c, p)
    case ResetKey => Reset(c)
  }

  /** The state after the events, oldest first, from the program's start. */
  function Run(events: seq<Event>): (c: Calib)
    ensures Valid(c)
  {
    if |events| == 0 then Cleared()
    else Step(Run(events[..|events| - 1]), events[|events| - 1])
  }

  /** The clicks made since the last reset, oldest first. */
  function PendingClicks(events: seq<Event>): seq<Point>
  {
    if |events| == 0 then []
    else
      match events[|events| - 1]
      case ResetKey => []
      case Click(p) => PendingClicks(events[..|events| - 1]) + [p]
  }

  /**
   * After any sequence of clicks and resets the counter is the number of
   * clicks since the last reset, capped at four; the filled slots hold the
   * first of those clicks in order and the rest are at the origin.
   */
  lemma {:induction false} RunRecordsFirstClicks(events: seq<Event>)
    ensures Run(events).counter == Min(Slots, |PendingClicks(events)|)
    ensures forall i :: 0 <= i < Run(events).counter ==> Run(events).points[i] == PendingClicks(events)[i]
    ensures forall i :: Run(events).counter <= i < Slots ==> Run(events).points[i] == Origin
  {
    if |events| > 0 {
      var prefix := events[..|events| - 1];
      RunRecordsFirstClicks(prefix);
      var before := Run(prefix);
      var pending := PendingClicks(prefix);
      match events[|events| - 1]
      case ResetKey =>
      case Click(p) =>
        assert PendingClicks(events) == pending + [p];
        assert forall i :: 0 <= i < |pending| ==> PendingClicks(events)[i] == pending[i];
    }
  }

  /**
   * The calibration frame after any clicks and resets: once four clicks have
   * been made since the last reset, the image is warped with the i-th of
   * them sent to destination corner i (TL, TR, BL, BR) and exactly those four
   * are saved; before that the camera image is shown and the file is left
   * as it was. The clicks marked are the ones recorded so far.
   */
  lemma {:induction false} FrameAfterRun(events: seq<Event>, file: Option<seq<Point>>)
    ensures Frame(Run(events), file).display.marked == PendingClicks(events)[..Min(Slots, |PendingClicks(events)|)]
    ensures |PendingClicks(events)| >= Slots <==> Frame(Run(events), file).display.ShowWarped?
    ensures |PendingClicks(events)| >= Slots ==>
              && Frame(Run(events), file).display.sources == PendingClicks(events)[..Slots]
              && Frame(Run(events), file).display.targets == DestinationCorners(MapWidth, MapHeight)
              && Frame(Run(events), file).file == Some(PendingClicks(events)[..Slots])
    ensures |PendingClicks(events)| < Slots ==> Frame(Run(events), file).file == file
  {
    RunRecordsFirstClicks(events);
  }

  /** Four clicks from a cleared state fill the slots in click order, and a fifth changes nothing. */
  lemma FourCornersScenario(tl: Point, tr: Point, bl: Point, br: Point, extra: Point)
    ensures Record(Record(Record(Record(Cleared(), tl), tr), bl), br) == Calib([tl, tr, bl, br], 4)
    ensures Record(Calib([tl, tr, bl, br], 4), extra) == Calib([tl, tr, bl, br], 4)
  {
  }
}
