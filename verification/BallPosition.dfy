/** Where the floating ball stands: apps/desktop/src/main/ui-shell/ball-position.ts, over exact real numbers. */
module BallPosition {
  import opened Basics

  const BALL_SIZE: real := 56.0
  const BALL_MARGIN: real := 12.0
  const DEFAULT_VERTICAL_RATIO: real := 0.6

  datatype Rect = Rect(x: real, y: real, width: real, height: real)

  datatype Display = Display(id: string, workArea: Rect)

  datatype Edge = Left | Right

  datatype Anchor = Anchor(displayId: string, edge: Edge, verticalRatio: real)

  datatype Placement = Placement(anchor: Anchor, bounds: Rect)

  function Min(a: real, b: real): real {
    if a <= b then a else b
  }

  function Max(a: real, b: real): real {
    if a >= b then a else b
  }

  function Abs(a: real): real {
    if a < 0.0 then -a else a
  }

  /** Math.round: halves go up. */
  function Round(a: real): real {
    (a + 0.5).Floor as real
  }

  function Clamp(value: real, minimum: real, maximum: real): real {
    Min(Max(value, minimum), Max(minimum, maximum))
  }

  function AvailableTravel(length: real): real {
    Max(0.0, length - BALL_SIZE - BALL_MARGIN * 2.0)
  }

  function LeftX(area: Rect): real {
    area.x + BALL_MARGIN
  }

  function RightX(area: Rect): real {
    area.x + area.width - BALL_MARGIN - BALL_SIZE
  }

  function TopY(area: Rect): real {
    area.y + BALL_MARGIN
  }

  function BottomY(area: Rect): real {
    area.y + area.height - BALL_MARGIN - BALL_SIZE
  }

  function EdgeX(edge: Edge, area: Rect): real {
    if edge == Left then LeftX(area) else RightX(area)
  }

  function YAt(verticalRatio: real, area: Rect): real {
    TopY(area) + AvailableTravel(area.height) * verticalRatio
  }

  function BallAt(x: real, y: real): Rect {
    Rect(Round(x), Round(y), BALL_SIZE, BALL_SIZE)
  }

  // ----- Choosing a display -----

  /** The display an anchor names, or the first one. An empty list is an error in the source. */
  function FindDisplay(anchor: Option<Anchor>, displays: seq<Display>): Display
    requires displays != []
  {
    FindFrom(anchor, displays, 0)
  }

  function FindFrom(anchor: Option<Anchor>, displays: seq<Display>, k: nat): Display
    requires displays != []
    decreases |displays| - k
  {
    if k >= |displays| then displays[0]
    else if anchor.Some? && displays[k].id == anchor.value.displayId then displays[k]
    else FindFrom(anchor, displays, k + 1)
  }

  function Overlap(a: Rect, b: Rect): real {
    var width := Max(0.0, Min(a.x + a.width, b.x + b.width) - Max(a.x, b.x));
    var height := Max(0.0, Min(a.y + a.height, b.y + b.height) - Max(a.y, b.y));
    width * height
  }

  function Distance(x: real, y: real, area: Rect): real {
    var dx, dy := x - Clamp(x, area.x, area.x + area.width), y - Clamp(y, area.y, area.y + area.height);
    dx * dx + dy * dy
  }

  function BestOverlap(bounds: Rect, displays: seq<Display>, best: Display): Display {
    if displays == [] then best
    else BestOverlap(bounds, displays[1..],
                     if Overlap(bounds, displays[0].workArea) > Overlap(bounds, best.workArea) then displays[0]
                       else best)
  }

  function Closest(x: real, y: real, displays: seq<Display>, best: Display): Display {
    if displays == [] then best
    else Closest(x, y, displays[1..],
                 if Distance(x, y, displays[0].workArea) < Distance(x, y, best.workArea) then displays[0] else best)
  }

  function FindNearest(bounds: Rect, displays: seq<Display>): Display
    requires displays != []
  {
    var best := BestOverlap(bounds, displays, displays[0]);
    if Overlap(bounds, best.workArea) > 0.0 then best
    else Closest(bounds.x + bounds.width / 2.0, bounds.y + bounds.height / 2.0, displays[1..], displays[0])
  }

  // ----- Placing the ball -----

  function Resolve(anchor: Option<Anchor>, displays: seq<Display>): Rect
    requires displays != []
  {
    var display := FindDisplay(anchor, displays);
    var a := if anchor.Some? then anchor.value else Anchor(display.id, Right, DEFAULT_VERTICAL_RATIO);
    var area := display.workArea;
    BallAt(EdgeX(a.edge, area), YAt(a.verticalRatio, area))
  }

  function NearerEdge(x: real, area: Rect): Edge {
    if Abs(x - LeftX(area)) <= Abs(x - RightX(area)) then Left else Right
  }

  function VerticalRatio(y: real, area: Rect): real {
    if AvailableTravel(area.height) == 0.0 then 0.0 else (y - area.y - BALL_MARGIN) / AvailableTravel(area.height)
  }

  function PlaceOn(requested: Rect, display: Display, edgeSnap: bool): Placement {
    var area := display.workArea;
    var x := Clamp(requested.x, LeftX(area), RightX(area));
    var y := Clamp(requested.y, TopY(area), BottomY(area));
    var edge := NearerEdge(x, area);
    Placement(Anchor(display.id, edge, VerticalRatio(y, area)), BallAt(if edgeSnap then EdgeX(edge, area) else x, y))
  }

  function Place(requested: Rect, displays: seq<Display>, edgeSnap: bool): Placement
    requires displays != []
  {
    PlaceOn(requested, FindNearest(requested, displays), edgeSnap)
  }

  // ----- Screens -----

  predicate IsWhole(a: real) {
    a == a.Floor as real
  }

  predicate IsRoomy(d: Display) {
    var a := d.workArea;
    && IsWhole(a.x) && IsWhole(a.y) && IsWhole(a.width) && IsWhole(a.height)
    && a.width >= BALL_SIZE + 2.0 * BALL_MARGIN && a.height >= BALL_SIZE + 2.0 * BALL_MARGIN
  }

  predicate AreApart(a: Rect, b: Rect) {
    a.x + a.width <= b.x || b.x + b.width <= a.x || a.y + a.height <= b.y || b.y + b.height <= a.y
  }

  /** Whole-number work areas with room for the ball, apart from each other, and ids that tell them apart. */
  predicate AreScreens(displays: seq<Display>) {
    && displays != [] && (forall d | d in displays :: IsRoomy(d))
    && forall i, j | 0 <= i < j < |displays| ::
         displays[i].id != displays[j].id && AreApart(displays[i].workArea, displays[j].workArea)
  }

  /** The ball lies inside the work area, a margin away from its border. */
  predicate IsInside(ball: Rect, area: Rect) {
    && ball.width == BALL_SIZE && ball.height == BALL_SIZE
    && LeftX(area) <= ball.x <= RightX(area) && TopY(area) <= ball.y <= BottomY(area)
  }

  // ----- The display chosen -----

  lemma {:induction false} BestIsLargest(bounds: Rect, displays: seq<Display>, best: Display)
    ensures var r := BestOverlap(bounds, displays, best);
            && (r == best || r in displays) && Overlap(bounds, r.workArea) >= Overlap(bounds, best.workArea)
            && forall d | d in displays :: Overlap(bounds, r.workArea) >= Overlap(bounds, d.workArea)
  {
    hide Overlap;
    if displays != [] {
      var better := if Overlap(bounds, displays[0].workArea) > Overlap(bounds, best.workArea) then displays[0]
        else best;
      BestIsLargest(bounds, displays[1..], better);
    }
  }

  lemma {:induction false} ClosestIsNearest(x: real, y: real, displays: seq<Display>, best: Display)
    ensures var r := Closest(x, y, displays, best);
            && (r == best || r in displays) && Distance(x, y, r.workArea) <= Distance(x, y, best.workArea)
            && forall d | d in displays :: Distance(x, y, r.workArea) <= Distance(x, y, d.workArea)
  {
    hide Distance;
    if displays != [] {
      var better := if Distance(x, y, displays[0].workArea) < Distance(x, y, best.workArea) then displays[0] else best;
      ClosestIsNearest(x, y, displays[1..], better);
    }
  }

  /** The display chosen overlaps most, and when none overlaps its work area is nearest to the centre. */
  lemma NearestIsBest(bounds: Rect, displays: seq<Display>)
    requires displays != []
    ensures var r := FindNearest(bounds, displays);
            var x, y := bounds.x + bounds.width / 2.0, bounds.y + bounds.height / 2.0;
            && r in displays
            && (forall d | d in displays :: Overlap(bounds, r.workArea) >= Overlap(bounds, d.workArea))
            && ((forall d | d in displays :: Overlap(bounds, d.workArea) <= 0.0) ==>
                  forall d | d in displays :: Distance(x, y, r.workArea) <= Distance(x, y, d.workArea))
  {
    hide Overlap, Distance;
    var x, y := bounds.x + bounds.width / 2.0, bounds.y + bounds.height / 2.0;
    BestIsLargest(bounds, displays, displays[0]);
    ClosestIsNearest(x, y, displays[1..], displays[0]);
    assert forall d | d in displays :: d == displays[0] || d in displays[1..];
    forall d | d in displays ensures Overlap(bounds, d.workArea) >= 0.0 { OverlapIsPositive(bounds, d.workArea); }
  }

  predicate IsIn(x: real, y: real, area: Rect) {
    area.x <= x <= area.x + area.width && area.y <= y <= area.y + area.height
  }

  /** The distance is the squared distance to the nearest point of the work area, which there is. */
  lemma DistanceIsLeast(x: real, y: real, area: Rect, p: real, q: real) returns (nearX: real, nearY: real)
    requires area.width >= 0.0 && area.height >= 0.0 && IsIn(p, q, area)
    ensures IsIn(nearX, nearY, area) && Distance(x, y, area) == (x - nearX) * (x - nearX) + (y - nearY) * (y - nearY)
    ensures Distance(x, y, area) <= (x - p) * (x - p) + (y - q) * (y - q)
  {
    nearX, nearY := Clamp(x, area.x, area.x + area.width), Clamp(y, area.y, area.y + area.height);
    SmallerSquare(x - nearX, x - p);
    SmallerSquare(y - nearY, y - q);
    hide Clamp;
  }

  lemma SmallerSquare(a: real, b: real)
    requires 0.0 <= a <= b || b <= a <= 0.0
    ensures a * a <= b * b
  {
  }

  /** The overlap is the area of the rectangle that both have in common, and nothing when they share no inner point. */
  lemma OverlapIsShared(a: Rect, b: Rect) returns (both: Rect)
    requires a.width > 0.0 && a.height > 0.0 && b.width > 0.0 && b.height > 0.0
    ensures forall x, y {:trigger IsWithin(x, y, both)} :: IsWithin(x, y, both) <==>
            IsWithin(x, y, a) && IsWithin(x, y, b)
    ensures Overlap(a, b) == (if both.width > 0.0 && both.height > 0.0 then both.width * both.height else 0.0)
  {
    var left, top := Max(a.x, b.x), Max(a.y, b.y);
    both := Rect(left, top, Min(a.x + a.width, b.x + b.width) - left, Min(a.y + a.height, b.y + b.height) - top);
  }

  predicate IsWithin(x: real, y: real, area: Rect) {
    area.x < x < area.x + area.width && area.y < y < area.y + area.height
  }

  lemma OverlapIsPositive(a: Rect, b: Rect)
    ensures Overlap(a, b) >= 0.0
  {
  }

  lemma InsideOverlaps(ball: Rect, area: Rect)
    requires IsInside(ball, area)
    ensures Overlap(ball, area) == BALL_SIZE * BALL_SIZE
  {
  }

  lemma OutsideDoesNot(ball: Rect, area: Rect, other: Rect)
    requires IsInside(ball, area) && AreApart(area, other)
    ensures Overlap(ball, other) == 0.0
  {
  }

  /** A ball inside one screen is on that screen only. */
  lemma OwnScreenIsNearest(ball: Rect, displays: seq<Display>, d: Display)
    requires AreScreens(displays) && d in displays && IsInside(ball, d.workArea)
    ensures FindNearest(ball, displays) == d
  {
    hide Overlap, Distance, IsInside, AreApart, FindNearest, IsRoomy;
    NearestIsBest(ball, displays);
    InsideOverlaps(ball, d.workArea);
    var i :| 0 <= i < |displays| && displays[i] == d;
    var r := FindNearest(ball, displays);
    var j :| 0 <= j < |displays| && displays[j] == r;
    ApartEitherWay(displays[i].workArea, displays[j].workArea);
    if i < j {
      OutsideDoesNot(ball, d.workArea, r.workArea);
    } else if j < i {
      ApartEitherWay(displays[j].workArea, displays[i].workArea);
      OutsideDoesNot(ball, d.workArea, r.workArea);
    }
  }

  lemma ApartEitherWay(a: Rect, b: Rect)
    ensures AreApart(a, b) == AreApart(b, a)
  {
  }

  lemma {:induction false} IdFinds(displays: seq<Display>, i: nat, anchor: Anchor, k: nat)
    requires AreScreens(displays) && k <= i < |displays| && anchor.displayId == displays[i].id
    ensures FindFrom(Some(anchor), displays, k) == displays[i]
    decreases i - k
  {
    hide IsRoomy, AreApart;
    if k < i { IdFinds(displays, i, anchor, k + 1); }
  }

  // ----- Rounding between whole numbers -----

  lemma FloorOf(n: int)
    ensures (n as real).Floor == n
  {
  }

  lemma FloorBetween(a: real, n: int)
    requires n as real <= a < n as real + 1.0
    ensures a.Floor == n
  {
  }

  lemma RoundOf(n: int)
    ensures Round(n as real) == n as real
  {
    FloorBetween(n as real + 0.5, n);
  }

  lemma RoundWithin(a: real, low: int, high: int)
    requires low as real <= a <= high as real
    ensures low as real <= Round(a) <= high as real
  {
    var f := (a + 0.5).Floor;
    assert f as real <= a + 0.5 < f as real + 1.0;
    assert low <= f <= high;
  }

  lemma RoundIsWhole(a: real)
    ensures IsWhole(Round(a))
  {
    FloorOf((a + 0.5).Floor);
  }

  lemma RoundBetween(a: real, low: real, high: real)
    requires IsWhole(low) && IsWhole(high) && low <= a <= high
    ensures low <= Round(a) <= high && IsWhole(Round(a))
  {
    var m, n := low.Floor, high.Floor;
    assert m as real == low && n as real == high;
    hide *;
    RoundWithin(a, m, n);
    RoundIsWhole(a);
  }

  lemma RoundWhole(a: real)
    requires IsWhole(a)
    ensures Round(a) == a
  {
    var n := a.Floor;
    assert n as real == a;
    hide *;
    RoundOf(n);
  }

  lemma IntegerSum(m: int, n: int)
    ensures IsWhole(m as real + n as real) && IsWhole(m as real - n as real)
  {
    assert m as real + n as real == (m + n) as real;
    assert m as real - n as real == (m - n) as real;
    FloorOf(m + n);
    FloorOf(m - n);
  }

  lemma WholeSum(a: real, b: real)
    requires IsWhole(a) && IsWhole(b)
    ensures IsWhole(a + b) && IsWhole(a - b)
  {
    var m, n := a.Floor, b.Floor;
    assert m as real == a && n as real == b;
    hide *;
    IntegerSum(m, n);
  }

  lemma EdgesAreWhole(d: Display)
    requires IsRoomy(d)
    ensures var a := d.workArea;
            && IsWhole(LeftX(a)) && IsWhole(RightX(a)) && IsWhole(TopY(a)) && IsWhole(BottomY(a))
            && LeftX(a) <= RightX(a) && TopY(a) <= BottomY(a)
  {
    var a := d.workArea;
    assert IsWhole(BALL_MARGIN) && IsWhole(BALL_SIZE);
    WholeSum(a.x, BALL_MARGIN);
    WholeSum(a.y, BALL_MARGIN);
    WholeSum(a.x, a.width);
    WholeSum(a.x + a.width, BALL_MARGIN);
    WholeSum(a.x + a.width - BALL_MARGIN, BALL_SIZE);
    WholeSum(a.y, a.height);
    WholeSum(a.y + a.height, BALL_MARGIN);
    WholeSum(a.y + a.height - BALL_MARGIN, BALL_SIZE);
  }

  // ----- Placement is stable -----

  lemma PlaceOnIsInside(requested: Rect, d: Display, edgeSnap: bool)
    requires IsRoomy(d)
    ensures IsInside(PlaceOn(requested, d, edgeSnap).bounds, d.workArea)
  {
    EdgesAreWhole(d);
    var a := d.workArea;
    var x, y := Clamp(requested.x, LeftX(a), RightX(a)), Clamp(requested.y, TopY(a), BottomY(a));
    RoundBetween(x, LeftX(a), RightX(a));
    RoundBetween(y, TopY(a), BottomY(a));
    RoundWhole(LeftX(a));
    RoundWhole(RightX(a));
  }

  /** Wherever the ball is asked to be, it comes to lie inside the margin of the screen chosen. */
  lemma PlacementIsInside(requested: Rect, displays: seq<Display>, edgeSnap: bool)
    requires displays != [] && forall d | d in displays :: IsRoomy(d)
    ensures var d := FindNearest(requested, displays);
            && d in displays && IsInside(Place(requested, displays, edgeSnap).bounds, d.workArea)
            && Place(requested, displays, edgeSnap).anchor.displayId == d.id
  {
    hide Overlap, Distance, FindNearest, IsInside, IsRoomy;
    NearestIsBest(requested, displays);
    PlaceOnIsInside(requested, FindNearest(requested, displays), edgeSnap);
  }

  // ----- The nearest place there is -----

  function Gap(a: real, b: real): real {
    if a <= b then b - a else a - b
  }

  /**
   * A whole-number position for the ball along one side of a work area: 12 from its start, 12 and the
   * ball from its end.
   */
  predicate IsFree(p: real, start: real, length: real) {
    IsWhole(p) && start + 12.0 <= p <= start + length - 12.0 - 56.0
  }

  /** b is the free position nearest to the one asked for; of two that are equally near it is the greater. */
  ghost predicate IsNearestFree(b: real, asked: real, start: real, length: real) {
    && IsFree(b, start, length)
    && forall p | IsFree(p, start, length) ::
      Gap(asked, b) < Gap(asked, p) || (Gap(asked, b) == Gap(asked, p) && p <= b)
  }

  lemma WholeApart(p: real, q: real)
    requires IsWhole(p) && IsWhole(q) && p < q
    ensures p + 1.0 <= q
  {
    assert p.Floor as real < q.Floor as real;
    assert p.Floor < q.Floor;
  }

  lemma RoundNear(a: real)
    ensures Round(a) - 0.5 <= a < Round(a) + 0.5
  {
  }

  /** Rounding a position kept within whole bounds gives the nearest whole number within them. */
  lemma RoundedIsNearest(asked: real, low: real, high: real, p: real)
    requires IsWhole(low) && IsWhole(high) && low <= high && IsWhole(p) && low <= p <= high
    ensures var b := Round(Clamp(asked, low, high));
            Gap(asked, b) < Gap(asked, p) || (Gap(asked, b) == Gap(asked, p) && p <= b)
  {
    var x := Clamp(asked, low, high);
    var b := Round(x);
    RoundNear(x);
    RoundIsWhole(x);
    RoundBetween(x, low, high);
    if p < b { WholeApart(p, b); }
    if b < p { WholeApart(b, p); }
    if asked < low { RoundWhole(low); }
    if asked > high { RoundWhole(high); }
    hide Round, IsWhole;
  }

  lemma SideIsNearest(asked: real, start: real, length: real)
    requires IsWhole(start) && IsWhole(length) && length >= 80.0
    ensures IsNearestFree(Round(Clamp(asked, start + BALL_MARGIN, start + length - BALL_MARGIN - BALL_SIZE)), asked,
              start, length)
  {
    var low, high := start + BALL_MARGIN, start + length - BALL_MARGIN - BALL_SIZE;
    assert IsWhole(BALL_MARGIN) && IsWhole(BALL_SIZE);
    WholeSum(start, BALL_MARGIN);
    WholeSum(start, length);
    WholeSum(start + length, BALL_MARGIN);
    WholeSum(start + length - BALL_MARGIN, BALL_SIZE);
    ClampWithin(asked, low, high);
    RoundBetween(Clamp(asked, low, high), low, high);
    hide Round, IsWhole, Clamp, Gap;
    forall p | IsFree(p, start, length)
      ensures var b := Round(Clamp(asked, low, high));
              Gap(asked, b) < Gap(asked, p) || (Gap(asked, b) == Gap(asked, p) && p <= b)
    {
      RoundedIsNearest(asked, low, high, p);
    }
  }

  /** The edge nearer to the position asked for, the left one when both are equally near. */
  lemma SnapIsNearer(asked: real, area: Rect)
    requires area.width >= 80.0
    ensures var left, right := area.x + 12.0, area.x + area.width - 12.0 - 56.0;
            var edge := NearerEdge(Clamp(asked, LeftX(area), RightX(area)), area);
            && edge == (if Gap(asked, left) <= Gap(asked, right) then Left else Right)
            && EdgeX(edge, area) == (if Gap(asked, left) <= Gap(asked, right) then left else right)
  {
  }

  /** The ratio stands for the point of the free side that is nearest to the one asked for, before rounding. */
  lemma RatioIsNearest(asked: real, area: Rect, p: real)
    requires area.height >= 80.0 && area.y + 12.0 <= p <= area.y + area.height - 12.0 - 56.0
    ensures var y := HeightAt(VerticalRatio(Clamp(asked, TopY(area), BottomY(area)), area), area);
            area.y + 12.0 <= y <= area.y + area.height - 12.0 - 56.0 && Gap(asked, y) <= Gap(asked, p)
  {
    var c := Clamp(asked, TopY(area), BottomY(area));
    var travel := AvailableTravel(area.height);
    assert travel == area.height - 80.0;
    if travel != 0.0 { Divides(c - area.y - BALL_MARGIN, travel); }
  }

  /** The height a ratio stands for: this share of the way the ball can go. */
  function HeightAt(ratio: real, area: Rect): real {
    area.y + 12.0 + ratio * (area.height - 80.0)
  }

  /** No height between top and bottom is nearer to the one asked for. */
  ghost predicate IsNearestHeight(y: real, asked: real, top: real, bottom: real) {
    top <= y <= bottom && forall q | top <= q <= bottom :: Gap(asked, y) <= Gap(asked, q)
  }

  /** In plain numbers of the work area: where a placement is nearest to the bounds asked for. */
  ghost predicate IsNearestPlacement(p: Placement, asked: Rect, area: Rect, edgeSnap: bool) {
    var left, right := area.x + 12.0, area.x + area.width - 12.0 - 56.0;
    var top, bottom := area.y + 12.0, area.y + area.height - 12.0 - 56.0;
    var leftIsNearer := Gap(asked.x, left) <= Gap(asked.x, right);
    && p.bounds.width == 56.0 && p.bounds.height == 56.0
    && IsNearestFree(p.bounds.y, asked.y, area.y, area.height)
    && (if edgeSnap then p.bounds.x == if leftIsNearer then left else right
        else IsNearestFree(p.bounds.x, asked.x, area.x, area.width))
    && p.anchor.edge == (if leftIsNearer then Left else Right)
    && IsNearestHeight(HeightAt(p.anchor.verticalRatio, area), asked.y, top, bottom)
  }

  lemma PlaceOnParts(requested: Rect, d: Display, edgeSnap: bool)
    requires IsRoomy(d)
    ensures var p, a := PlaceOn(requested, d, edgeSnap), d.workArea;
            var x, y := Clamp(requested.x, LeftX(a), RightX(a)), Clamp(requested.y, TopY(a), BottomY(a));
            && p.anchor == Anchor(d.id, NearerEdge(x, a), VerticalRatio(y, a))
            && p.bounds == Rect(if edgeSnap then EdgeX(NearerEdge(x, a), a) else Round(x), Round(y), 56.0, 56.0)
  {
    EdgesAreWhole(d);
    RoundWhole(LeftX(d.workArea));
    RoundWhole(RightX(d.workArea));
    EdgeRounds(NearerEdge(Clamp(requested.x, LeftX(d.workArea), RightX(d.workArea)), d.workArea), d.workArea);
    hide Round, VerticalRatio, IsRoomy, NearerEdge, Clamp, LeftX, RightX, TopY, BottomY, EdgeX;
  }

  lemma SidesAreNearest(requested: Rect, a: Rect)
    requires IsWhole(a.x) && IsWhole(a.y) && IsWhole(a.width) && IsWhole(a.height) && a.width >= 80.0
             && a.height >= 80.0
    ensures IsNearestFree(Round(Clamp(requested.x, LeftX(a), RightX(a))), requested.x, a.x, a.width)
    ensures IsNearestFree(Round(Clamp(requested.y, TopY(a), BottomY(a))), requested.y, a.y, a.height)
  {
    SideIsNearest(requested.x, a.x, a.width);
    SideIsNearest(requested.y, a.y, a.height);
    hide Round, Clamp, IsNearestFree, IsWhole;
  }

  lemma HeightIsNearest(asked: real, a: Rect)
    requires a.height >= 80.0
    ensures IsNearestHeight(HeightAt(VerticalRatio(Clamp(asked, TopY(a), BottomY(a)), a), a), asked,
                            a.y + 12.0, a.y + a.height - 12.0 - 56.0)
  {
    RatioIsNearest(asked, a, a.y + 12.0);
    hide VerticalRatio, Clamp, Gap, HeightAt;
    forall q | a.y + 12.0 <= q <= a.y + a.height - 12.0 - 56.0
      ensures Gap(asked, HeightAt(VerticalRatio(Clamp(asked, TopY(a), BottomY(a)), a), a)) <= Gap(asked, q)
    {
      RatioIsNearest(asked, a, q);
    }
  }

  lemma RoomyArea(d: Display)
    requires IsRoomy(d)
    ensures var a := d.workArea;
            IsWhole(a.x) && IsWhole(a.y) && IsWhole(a.width) && IsWhole(a.height) && a.width >= 80.0 && a.height >= 80.0
  {
  }

  lemma PlaceOnIsNearest(requested: Rect, d: Display, edgeSnap: bool)
    requires IsRoomy(d)
    ensures PlaceOn(requested, d, edgeSnap).anchor.displayId == d.id
    ensures IsNearestPlacement(PlaceOn(requested, d, edgeSnap), requested, d.workArea, edgeSnap)
  {
    RoomyArea(d);
    PlaceOnParts(requested, d, edgeSnap);
    SidesAreNearest(requested, d.workArea);
    SnapIsNearer(requested.x, d.workArea);
    HeightIsNearest(requested.y, d.workArea);
    hide Round, Clamp, IsNearestFree, IsNearestHeight, VerticalRatio, NearerEdge, EdgeX, Gap, IsRoomy, IsWhole, PlaceOn;
    hide LeftX, RightX, TopY, BottomY, HeightAt;
  }

  /**
   * Where the ball is put, in the numbers of the work area chosen. Off the edge it comes to the free whole-number
   * position nearest to the one asked for, in x and in y; with edge snap it goes to the nearer edge, the left one when
   * both are equally near. The anchor names that edge in both cases, and its ratio the nearest height.
   */
  lemma PlacementIsNearest(requested: Rect, displays: seq<Display>, edgeSnap: bool)
    requires displays != [] && forall d | d in displays :: IsRoomy(d)
    ensures var d := FindNearest(requested, displays);
            && d in displays && Place(requested, displays, edgeSnap).anchor.displayId == d.id
            && IsNearestPlacement(Place(requested, displays, edgeSnap), requested, d.workArea, edgeSnap)
  {
    hide Overlap, Distance, PlaceOn, IsNearestPlacement, IsRoomy, FindNearest;
    NearestIsBest(requested, displays);
    PlaceIs(requested, displays, edgeSnap);
    PlaceOnIsNearest(requested, FindNearest(requested, displays), edgeSnap);
  }

  lemma PlaceOnAgain(requested: Rect, d: Display, edgeSnap: bool)
    requires IsRoomy(d)
    ensures var p := PlaceOn(requested, d, edgeSnap); PlaceOn(p.bounds, d, edgeSnap).bounds == p.bounds
  {
    EdgesAreWhole(d);
    var a := d.workArea;
    var x, y := Clamp(requested.x, LeftX(a), RightX(a)), Clamp(requested.y, TopY(a), BottomY(a));
    RoundBetween(x, LeftX(a), RightX(a));
    RoundBetween(y, TopY(a), BottomY(a));
    RoundWhole(LeftX(a));
    RoundWhole(RightX(a));
    RoundWhole(Round(x));
    RoundWhole(Round(y));
    hide Round, IsRoomy, IsWhole;
  }

  /** Placing the bounds again changes nothing: the feedback between moving and setting bounds ends after one step. */
  lemma PlacingAgainChangesNothing(requested: Rect, displays: seq<Display>, edgeSnap: bool)
    requires AreScreens(displays)
    ensures var p := Place(requested, displays, edgeSnap); Place(p.bounds, displays, edgeSnap).bounds == p.bounds
  {
    hide Overlap, Distance, AreApart, FindNearest, IsInside, IsRoomy, PlaceOn;
    PlacementIsInside(requested, displays, edgeSnap);
    var d := FindNearest(requested, displays);
    OwnScreenIsNearest(Place(requested, displays, edgeSnap).bounds, displays, d);
    PlaceOnAgain(requested, d, edgeSnap);
  }

  /**
   * Rounding carries x across the middle of two whole edges with this sum: upwards from just above a middle that is a
   * whole number, which is then nearer the left edge again, or from a middle halfway between two.
   */
  predicate CrossesMiddle(x: real, sum: real) {
    if IsWhole(sum / 2.0) then sum < 2.0 * x < sum + 1.0 else 2.0 * x == sum
  }

  /** What rounding does not move: a whole vertical position, and with the ball off the edge, the side of the middle. */
  predicate SurvivesRounding(requested: Rect, area: Rect, edgeSnap: bool) {
    var x, y := Clamp(requested.x, LeftX(area), RightX(area)), Clamp(requested.y, TopY(area), BottomY(area));
    && (AvailableTravel(area.height) == 0.0 || IsWhole(y))
    && (edgeSnap || !CrossesMiddle(x, LeftX(area) + RightX(area)))
  }

  lemma EdgeAfterRounding(x: real, a: Rect)
    requires IsWhole(LeftX(a)) && IsWhole(RightX(a)) && LeftX(a) <= x <= RightX(a)
    ensures NearerEdge(Round(x), a) == NearerEdge(x, a) <==> !CrossesMiddle(x, LeftX(a) + RightX(a))
  {
    var l, r := LeftX(a).Floor, RightX(a).Floor;
    assert l as real == LeftX(a) && r as real == RightX(a);
    RoundBetween(x, LeftX(a), RightX(a));
    NearerIsBelowMiddle(x, a);
    NearerIsBelowMiddle(Round(x), a);
    hide IsWhole, LeftX, RightX, NearerEdge, Round;
    Middle(l, r);
    MiddleAfterRounding(x, l + r);
  }

  lemma NearerIsBelowMiddle(x: real, a: Rect)
    requires LeftX(a) <= x <= RightX(a)
    ensures NearerEdge(x, a) == Left <==> 2.0 * x <= LeftX(a) + RightX(a)
  {
    hide LeftX, RightX;
  }

  lemma Middle(l: int, r: int)
    ensures l as real + r as real == (l + r) as real
  {
  }

  lemma MiddleAfterRounding(x: real, sum: int)
    ensures (2.0 * Round(x) <= sum as real <==> 2.0 * x <= sum as real) <==> !CrossesMiddle(x, sum as real)
  {
    var f := (x + 0.5).Floor;
    assert f as real <= x + 0.5 < f as real + 1.0;
    HalfIsWhole(sum);
    assert 2.0 * Round(x) == (2 * f) as real;
    hide IsWhole;
    var m := sum / 2;
    if sum % 2 == 0 {
      assert (2 * f) as real <= sum as real <==> f <= m;
    } else {
      assert sum == 2 * m + 1 && sum as real == 2.0 * (m as real) + 1.0;
      assert (2 * f) as real <= sum as real <==> f <= m;
    }
  }

  lemma HalfIsWhole(sum: int)
    ensures IsWhole(sum as real / 2.0) <==> sum % 2 == 0
  {
    var h := sum as real / 2.0;
    if sum % 2 == 0 { assert h == (sum / 2) as real; }
  }

  /** The anchor is stable exactly when rounding does not move it: bounds come back in any case. */
  lemma AnchorIsStableExactly(requested: Rect, displays: seq<Display>, edgeSnap: bool)
    requires AreScreens(displays)
    ensures var p := Place(requested, displays, edgeSnap);
            Place(p.bounds, displays, edgeSnap) == p <==>
              SurvivesRounding(requested, FindNearest(requested, displays).workArea, edgeSnap)
  {
    assert displays != [];
    hide *;
    var d := FindNearest(requested, displays);
    var p := Place(requested, displays, edgeSnap);
    PlacementIsInside(requested, displays, edgeSnap);
    PlacingAgainChangesNothing(requested, displays, edgeSnap);
    OwnScreenIsNearest(p.bounds, displays, d);
    PlaceIs(requested, displays, edgeSnap);
    PlaceIs(p.bounds, displays, edgeSnap);
    ScreenIsRoomy(displays, d);
    AnchorAgain(requested, d, edgeSnap);
  }

  lemma AnchorAgain(requested: Rect, d: Display, edgeSnap: bool)
    requires IsRoomy(d)
    ensures var p := PlaceOn(requested, d, edgeSnap);
            PlaceOn(p.bounds, d, edgeSnap).anchor == p.anchor <==> SurvivesRounding(requested, d.workArea, edgeSnap)
  {
    EdgesAreWhole(d);
    var a := d.workArea;
    var x, y := Clamp(requested.x, LeftX(a), RightX(a)), Clamp(requested.y, TopY(a), BottomY(a));
    ClampWithin(requested.x, LeftX(a), RightX(a));
    ClampWithin(requested.y, TopY(a), BottomY(a));
    RoundBetween(x, LeftX(a), RightX(a));
    RoundBetween(y, TopY(a), BottomY(a));
    RoundWhole(LeftX(a));
    RoundWhole(RightX(a));
    ClampStays(Round(x), LeftX(a), RightX(a));
    ClampStays(Round(y), TopY(a), BottomY(a));
    ClampStays(EdgeX(NearerEdge(x, a), a), LeftX(a), RightX(a));
    EdgeStays(x, a);
    EdgeAfterRounding(x, a);
    RatioTells(y, Round(y), a);
    if IsWhole(y) { RoundWhole(y); }
    hide Round, VerticalRatio, AvailableTravel, IsWhole, IsRoomy, Clamp, LeftX, RightX, TopY, BottomY, NearerEdge,
         CrossesMiddle;
  }

  lemma ClampStays(value: real, minimum: real, maximum: real)
    requires minimum <= value <= maximum
    ensures Clamp(value, minimum, maximum) == value
  {
  }

  lemma EdgeStays(x: real, a: Rect)
    requires LeftX(a) <= x <= RightX(a)
    ensures NearerEdge(EdgeX(NearerEdge(x, a), a), a) == NearerEdge(x, a)
  {
  }

  lemma RatioTells(y: real, z: real, a: Rect)
    ensures VerticalRatio(y, a) == VerticalRatio(z, a) <==> AvailableTravel(a.height) == 0.0 || y == z
  {
    var travel := AvailableTravel(a.height);
    if travel != 0.0 {
      Divides(y - a.y - BALL_MARGIN, travel);
      Divides(z - a.y - BALL_MARGIN, travel);
    }
  }

  /** Whole-number requests always survive. */
  lemma WholeRequestsSurvive(requested: Rect, d: Display, edgeSnap: bool)
    requires IsRoomy(d) && IsWhole(requested.x) && IsWhole(requested.y)
    ensures SurvivesRounding(requested, d.workArea, edgeSnap)
  {
    EdgesAreWhole(d);
    var a := d.workArea;
    var x, y := Clamp(requested.x, LeftX(a), RightX(a)), Clamp(requested.y, TopY(a), BottomY(a));
    assert IsWhole(x) && IsWhole(y);
    ClampWithin(requested.x, LeftX(a), RightX(a));
    RoundWhole(x);
    hide Round, IsRoomy, IsWhole, LeftX, RightX, TopY, BottomY, Clamp, CrossesMiddle, NearerEdge;
    EdgeAfterRounding(x, a);
  }

  lemma RoundingMovesTheAnchor()
    ensures var screens := [Display("1", Rect(0.0, 0.0, 200.0, 200.0))];
            var p := Place(Rect(12.0, 20.5, 56.0, 56.0), screens, true);
            AreScreens(screens) && Place(p.bounds, screens, true).anchor != p.anchor
  {
    var d := Display("1", Rect(0.0, 0.0, 200.0, 200.0));
    var p := PlaceOn(Rect(12.0, 20.5, 56.0, 56.0), d, true);
    assert p.anchor.verticalRatio == 8.5 / 120.0;
    assert p.bounds.y == 21.0;
    assert PlaceOn(p.bounds, d, true).anchor.verticalRatio == 9.0 / 120.0;
    OneScreen(d, Rect(12.0, 20.5, 56.0, 56.0));
    OneScreen(d, p.bounds);
  }

  /**
   * The other half fails too: a ball just right of the middle comes to stand on it, and then belongs to
   * the left edge.
   */
  lemma RoundingFlipsTheEdge()
    ensures var screens := [Display("1", Rect(0.0, 0.0, 200.0, 200.0))];
            var p := Place(Rect(72.25, 20.0, 56.0, 56.0), screens, false);
            AreScreens(screens) && p.anchor.edge == Right && Place(p.bounds, screens, false).anchor.edge == Left
  {
    var d := Display("1", Rect(0.0, 0.0, 200.0, 200.0));
    var p := PlaceOn(Rect(72.25, 20.0, 56.0, 56.0), d, false);
    assert p.anchor.edge == Right && p.bounds.x == 72.0;
    assert PlaceOn(p.bounds, d, false).anchor.edge == Left;
    OneScreen(d, Rect(72.25, 20.0, 56.0, 56.0));
    OneScreen(d, p.bounds);
  }

  lemma OneScreen(d: Display, bounds: Rect)
    ensures FindNearest(bounds, [d]) == d
  {
    hide Overlap, Distance;
    NearestIsBest(bounds, [d]);
  }

  // ----- Resolving the anchor -----

  lemma RatioReturns(y: real, d: Display)
    requires IsRoomy(d) && TopY(d.workArea) <= y <= BottomY(d.workArea)
    ensures YAt(VerticalRatio(y, d.workArea), d.workArea) == y
  {
    var a := d.workArea;
    var travel := AvailableTravel(a.height);
    if travel != 0.0 { Divides(y - a.y - BALL_MARGIN, travel); }
  }

  lemma Divides(a: real, b: real)
    requires b != 0.0
    ensures b * (a / b) == a
  {
  }

  /** The request lies at the edge it is nearer to, less than half a unit away. */
  predicate IsAtEdge(requested: Rect, area: Rect) {
    var x := Clamp(requested.x, LeftX(area), RightX(area));
    if NearerEdge(x, area) == Left then x < LeftX(area) + 0.5 else x >= RightX(area) - 0.5
  }

  /**
   * The bounds the derived anchor resolves to are the placement's own exactly with edge snap or for a
   * request at an edge.
   */
  lemma ResolvingTheAnchor(requested: Rect, displays: seq<Display>, edgeSnap: bool)
    requires AreScreens(displays)
    ensures var p := Place(requested, displays, edgeSnap);
            var area := FindNearest(requested, displays).workArea;
            Resolve(Some(p.anchor), displays) == p.bounds <==> edgeSnap || IsAtEdge(requested, area)
  {
    assert displays != [];
    hide *;
    var d := FindNearest(requested, displays);
    PlacementIsInside(requested, displays, edgeSnap);
    PlaceIs(requested, displays, edgeSnap);
    ScreenIsRoomy(displays, d);
    ResolveIs(PlaceOn(requested, d, edgeSnap).anchor, displays, d);
    ResolvedOn(requested, d, edgeSnap);
    if !edgeSnap { AtEdge(requested, d, edgeSnap); }
  }

  lemma RoundUp(a: real, n: int)
    ensures Round(a) == n as real <==> n as real - 0.5 <= a < n as real + 0.5
  {
    var f := (a + 0.5).Floor;
    assert f as real <= a + 0.5 < f as real + 1.0;
    if n as real - 0.5 <= a < n as real + 0.5 { FloorBetween(a + 0.5, n); }
  }

  lemma AtEdge(requested: Rect, d: Display, edgeSnap: bool)
    requires IsRoomy(d) && !edgeSnap
    ensures var p := PlaceOn(requested, d, edgeSnap);
            p.bounds.x == EdgeX(p.anchor.edge, d.workArea) <==> IsAtEdge(requested, d.workArea)
  {
    EdgesAreWhole(d);
    var a := d.workArea;
    ClampWithin(requested.x, LeftX(a), RightX(a));
    var l, r := LeftX(a).Floor, RightX(a).Floor;
    assert l as real == LeftX(a) && r as real == RightX(a);
    hide Round, VerticalRatio, YAt, IsWhole, IsRoomy, Clamp, LeftX, RightX, TopY, BottomY, NearerEdge;
    var x := Clamp(requested.x, LeftX(a), RightX(a));
    RoundUp(x, l);
    RoundUp(x, r);
  }

  lemma PlaceIs(requested: Rect, displays: seq<Display>, edgeSnap: bool)
    requires displays != []
    ensures Place(requested, displays, edgeSnap)
            == PlaceOn(requested, FindNearest(requested, displays), edgeSnap)
  {
    hide FindNearest, PlaceOn;
  }

  lemma ScreenIsRoomy(displays: seq<Display>, d: Display)
    requires AreScreens(displays) && d in displays
    ensures IsRoomy(d)
  {
    hide IsRoomy, AreApart;
  }

  lemma ResolveIs(anchor: Anchor, displays: seq<Display>, d: Display)
    requires AreScreens(displays) && d in displays && anchor.displayId == d.id
    ensures displays != []
    ensures Resolve(Some(anchor), displays)
         == BallAt(EdgeX(anchor.edge, d.workArea), YAt(anchor.verticalRatio, d.workArea))
  {
    hide IsRoomy, AreApart, BallAt, EdgeX, YAt;
    var i :| 0 <= i < |displays| && displays[i] == d;
    IdFinds(displays, i, anchor, 0);
  }

  lemma ResolvedOn(requested: Rect, d: Display, edgeSnap: bool)
    requires IsRoomy(d)
    ensures var p, a := PlaceOn(requested, d, edgeSnap), d.workArea;
            var resolved := BallAt(EdgeX(p.anchor.edge, a), YAt(p.anchor.verticalRatio, a));
            && resolved.x == EdgeX(p.anchor.edge, a) && resolved.y == p.bounds.y
            && resolved.width == p.bounds.width && resolved.height == p.bounds.height
            && (edgeSnap ==> p.bounds.x == EdgeX(p.anchor.edge, a))
  {
    EdgesAreWhole(d);
    var p, a := PlaceOn(requested, d, edgeSnap), d.workArea;
    var y := Clamp(requested.y, TopY(a), BottomY(a));
    ClampWithin(requested.y, TopY(a), BottomY(a));
    RatioReturns(y, d);
    RoundWhole(LeftX(a));
    RoundWhole(RightX(a));
    EdgeRounds(p.anchor.edge, a);
    hide Round, VerticalRatio, YAt, IsWhole, IsRoomy, NearerEdge, Clamp, EdgeX, LeftX, RightX, TopY, BottomY;
  }

  lemma EdgeRounds(edge: Edge, area: Rect)
    requires Round(LeftX(area)) == LeftX(area) && Round(RightX(area)) == RightX(area)
    ensures Round(EdgeX(edge, area)) == EdgeX(edge, area)
  {
  }

  lemma ClampWithin(value: real, minimum: real, maximum: real)
    requires minimum <= maximum
    ensures minimum <= Clamp(value, minimum, maximum) <= maximum
  {
  }

  /**
   * Every stored anchor, or none, resolves to bounds inside the margin; without one, at the right of
   * the first display.
   */
  lemma ResolvingIsInside(anchor: Option<Anchor>, displays: seq<Display>)
    requires displays != [] && forall d | d in displays :: IsRoomy(d)
    requires anchor.Some? ==> 0.0 <= anchor.value.verticalRatio <= 1.0
    ensures var d := FindDisplay(anchor, displays);
            d in displays && IsInside(Resolve(anchor, displays), d.workArea)
    ensures anchor.None? ==>
              && FindDisplay(anchor, displays) == displays[0]
              && Resolve(anchor, displays).x == RightX(displays[0].workArea)
  {
    FindsOne(anchor, displays, 0);
    hide IsRoomy, BallAt, EdgeX, YAt, IsInside, FindFrom, LeftX, RightX;
    var d := FindDisplay(anchor, displays);
    var a := if anchor.Some? then anchor.value else Anchor(d.id, Right, DEFAULT_VERTICAL_RATIO);
    AnchoredInside(a.edge, a.verticalRatio, d);
  }

  /**
   * Where a stored anchor puts the ball, in plain numbers: on the first display it names, or on the first one of all,
   * at its edge, at the free whole-number height nearest to its share of the way. Without an anchor this is six tenths
   * down the right edge of the first display.
   */
  lemma ResolvingIsNearest(anchor: Option<Anchor>, displays: seq<Display>)
    requires displays != [] && forall d | d in displays :: IsRoomy(d)
    requires anchor.Some? ==> 0.0 <= anchor.value.verticalRatio <= 1.0
    ensures var d, b := FindDisplay(anchor, displays), Resolve(anchor, displays);
            var edge, ratio := if anchor.Some? then anchor.value.edge else Right,
                               if anchor.Some? then anchor.value.verticalRatio else 0.6;
            var area := d.workArea;
            && (anchor.None? || (forall i | 0 <= i < |displays| :: displays[i].id != anchor.value.displayId) ==>
               d == displays[0])
            && (anchor.Some? && (exists i | 0 <= i < |displays| :: displays[i].id == anchor.value.displayId) ==>
                  d.id == anchor.value.displayId)
            && b.x == (if edge == Left then area.x + 12.0 else area.x + area.width - 12.0 - 56.0)
            && IsNearestFree(b.y, HeightAt(ratio, area), area.y, area.height) && b.width == 56.0 && b.height == 56.0
  {
    FindsOne(anchor, displays, 0);
    if anchor.Some? { FindsNamed(anchor, displays, 0); }
    hide IsRoomy, BallAt, EdgeX, YAt, FindFrom, LeftX, RightX, IsNearestFree, HeightAt;
    var d := FindDisplay(anchor, displays);
    var a := if anchor.Some? then anchor.value else Anchor(d.id, Right, DEFAULT_VERTICAL_RATIO);
    AnchoredNearest(a.edge, a.verticalRatio, d);
  }

  /** Searched from k on: the display named, if there is one. */
  lemma {:induction false} FindsNamed(anchor: Option<Anchor>, displays: seq<Display>, k: nat)
    requires displays != [] && anchor.Some?
    ensures var d := FindFrom(anchor, displays, k);
            if exists i | k <= i < |displays| :: displays[i].id == anchor.value.displayId then
              d.id == anchor.value.displayId
            else d == displays[0]
    decreases |displays| - k
  {
    if k < |displays| { FindsNamed(anchor, displays, k + 1); }
  }

  lemma AnchoredNearest(edge: Edge, ratio: real, d: Display)
    requires IsRoomy(d) && 0.0 <= ratio <= 1.0
    ensures var b, area := BallAt(EdgeX(edge, d.workArea), YAt(ratio, d.workArea)), d.workArea;
            && b.x == (if edge == Left then area.x + 12.0 else area.x + area.width - 12.0 - 56.0)
            && IsNearestFree(b.y, HeightAt(ratio, area), area.y, area.height) && b.width == 56.0 && b.height == 56.0
  {
    EdgesAreWhole(d);
    var a := d.workArea;
    RoomyArea(d);
    YWithin(ratio, a);
    RoundWhole(LeftX(a));
    RoundWhole(RightX(a));
    SideIsNearest(YAt(ratio, a), a.y, a.height);
    ClampStays(YAt(ratio, a), TopY(a), BottomY(a));
    assert YAt(ratio, a) == HeightAt(ratio, a);
    hide Round, IsWhole, IsRoomy, Clamp, IsNearestFree, YAt, HeightAt;
  }

  lemma {:induction false} FindsOne(anchor: Option<Anchor>, displays: seq<Display>, k: nat)
    requires displays != []
    ensures FindFrom(anchor, displays, k) in displays && (anchor.None? ==> FindFrom(anchor, displays, k) == displays[0])
    decreases |displays| - k
  {
    if k < |displays| { FindsOne(anchor, displays, k + 1); }
  }

  lemma AnchoredInside(edge: Edge, ratio: real, d: Display)
    requires IsRoomy(d) && 0.0 <= ratio <= 1.0
    ensures var ball := BallAt(EdgeX(edge, d.workArea), YAt(ratio, d.workArea));
            IsInside(ball, d.workArea) && (edge == Right ==> ball.x == RightX(d.workArea))
  {
    EdgesAreWhole(d);
    var a := d.workArea;
    YWithin(ratio, a);
    RoundWhole(LeftX(a));
    RoundWhole(RightX(a));
    RoundBetween(YAt(ratio, a), TopY(a), BottomY(a));
    hide Round, YAt, IsWhole, IsRoomy, LeftX, RightX, TopY, BottomY;
  }

  lemma YWithin(ratio: real, a: Rect)
    requires 0.0 <= ratio <= 1.0 && TopY(a) <= BottomY(a)
    ensures TopY(a) <= YAt(ratio, a) <= BottomY(a)
  {
    Fraction(AvailableTravel(a.height), ratio);
  }

  lemma Fraction(travel: real, ratio: real)
    requires travel >= 0.0 && 0.0 <= ratio <= 1.0
    ensures 0.0 <= travel * ratio <= travel
  {
  }
}
