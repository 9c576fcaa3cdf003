/** Polygons, the Sutherland-Hodgman clip against a box, and zones, over exact reals. */
module Geometry {

  datatype Point = Point(x: real, y: real)

  datatype Box = Box(xMin: real, yMin: real, xMax: real, yMax: real)

  /** Finiteness is not a question over the reals. */
  predicate ValidBox(b: Box) {
    b.xMin >= 0.0 && b.yMin >= 0.0 && b.xMax <= 1.0 && b.yMax <= 1.0 && b.xMin < b.xMax && b.yMin < b.yMax
  }

  function Positive(r: real): real {
    if r > 0.0 then r else 0.0
  }

  function BoxArea(b: Box): real {
    Positive(b.xMax - b.xMin) * Positive(b.yMax - b.yMin)
  }

  function Abs(r: real): real {
    if r < 0.0 then -r else r
  }

  // ---------------------------------------------------------------- the shoelace sum

  function Cross(a: Point, b: Point): real {
    a.x * b.y - b.x * a.y
  }

  /** The shoelace terms along an open path that starts at `from`. */
  function PathSum(from: Point, path: seq<Point>): real
    decreases |path|
  {
    if path == [] then 0.0 else Cross(from, path[0]) + PathSum(path[0], path[1..])
  }

  function Last(path: seq<Point>, default: Point): Point {
    if path == [] then default else path[|path| - 1]
  }

  /** Twice the signed area of a closed polygon: the last vertex is joined to the first. */
  function SignedSum(polygon: seq<Point>): real {
    if polygon == [] then 0.0 else PathSum(polygon[|polygon| - 1], polygon)
  }

  function PolygonArea(polygon: seq<Point>): real {
    Abs(SignedSum(polygon)) / 2.0
  }

  lemma {:induction false} PathSumAppend(from: Point, a: seq<Point>, b: seq<Point>)
    ensures PathSum(from, a + b) == PathSum(from, a) + PathSum(Last(a, from), b)
    decreases |a|
  {
    if a == [] {
      assert a + b == b;
    } else {
      assert (a + b)[1..] == a[1..] + b;
      PathSumAppend(a[0], a[1..], b);
      assert Last(a, from) == Last(a[1..], a[0]);
    }
  }

  /** Fewer than three vertices enclose nothing, so the early return loses nothing. */
  lemma DegeneratePolygon(polygon: seq<Point>)
    requires |polygon| < 3
    ensures SignedSum(polygon) == 0.0
  {
    if |polygon| == 1 {
      assert PathSum(polygon[0], polygon) == Cross(polygon[0], polygon[0]) + PathSum(polygon[0], polygon[1..]);
    } else if |polygon| == 2 {
      var a, b := polygon[0], polygon[1];
      assert PathSum(b, polygon) == Cross(b, a) + PathSum(a, polygon[1..]);
      assert PathSum(a, polygon[1..]) == Cross(a, b) + PathSum(b, polygon[1..][1..]);
    }
  }

  /** The edges may be summed from the first vertex round to itself. */
  lemma SumFromFirst(polygon: seq<Point>)
    requires polygon != []
    ensures SignedSum(polygon) == PathSum(polygon[0], polygon[1..] + [polygon[0]])
  {
    PathSumAppend(polygon[0], polygon[1..], [polygon[0]]);
    var last := polygon[|polygon| - 1];
    assert Last(polygon[1..], polygon[0]) == last;
    assert PathSum(last, [polygon[0]]) == Cross(last, polygon[0]) + PathSum(polygon[0], [polygon[0]][1..]);
  }

  lemma NextIndex(i: nat, n: nat)
    requires i < n
    ensures (i + 1) % n == if i + 1 == n then 0 else i + 1
  {
  }

  lemma NextVertex(polygon: seq<Point>, round: seq<Point>, i: nat)
    requires i < |polygon| && round == polygon[1..] + [polygon[0]]
    ensures PathSum(polygon[0], round[..i + 1]) == PathSum(polygon[0], round[..i]) + Cross(polygon[i], round[i])
  {
    assert polygon[i] == Last(round[..i], polygon[0]);
    assert round[..i + 1] == round[..i] + [round[i]];
    PathSumAppend(polygon[0], round[..i], [round[i]]);
    assert PathSum(polygon[i], [round[i]]) == Cross(polygon[i], round[i]) + PathSum(round[i], [round[i]][1..]);
  }

  method ComputePolygonArea(polygon: seq<Point>) returns (area: real)
    ensures area == PolygonArea(polygon)
  {
    if |polygon| < 3 {
      DegeneratePolygon(polygon);
      return 0.0;
    }
    ghost var round := polygon[1..] + [polygon[0]];
    var twiceArea := 0.0;
    var n := |polygon|;
    var i := 0;
    while i < n
      invariant i <= n
      invariant twiceArea == PathSum(polygon[0], round[..i])
    {
      var current, next := polygon[i], polygon[(i + 1) % n];
      NextIndex(i, n);
      assert next == round[i];
      NextVertex(polygon, round, i);
      twiceArea := twiceArea + Cross(current, next);
      i := i + 1;
    }
    assert round[..n] == round;
    SumFromFirst(polygon);
    area := Abs(twiceArea) / 2.0;
  }

  predicate InUnitSquare(p: Point) {
    0.0 <= p.x <= 1.0 && 0.0 <= p.y <= 1.0
  }

  predicate ValidPolygon(polygon: seq<Point>) {
    |polygon| >= 3 && PolygonArea(polygon) >= 0.0001 && forall i :: 0 <= i < |polygon| ==> InUnitSquare(polygon[i])
  }

  // ---------------------------------------------------------------- clipping

  datatype Edge = Left | Right | Top | Bottom

  /** What one edge of a box keeps: the points on one side of a line along an axis. */
  datatype Half = Half(vertical: bool, at: real, above: bool)

  function HalfOf(box: Box, edge: Edge): Half {
    match edge
    case Left => Half(true, box.xMin, true)
    case Right => Half(true, box.xMax, false)
    case Top => Half(false, box.yMin, true)
    case Bottom => Half(false, box.yMax, false)
  }

  /** The coordinate across the line. */
  function Across(h: Half, p: Point): real {
    if h.vertical then p.x else p.y
  }

  predicate In(h: Half, p: Point) {
    if h.above then Across(h, p) >= h.at else Across(h, p) <= h.at
  }

  /** How far along the edge from `a` to `b` the line is met; an edge that hardly moves across
      the line is met at its start. */
  function Parameter(h: Half, a: Point, b: Point): real {
    GuardedQuotient(h.at - Across(h, a), Across(h, b) - Across(h, a))
  }

  const GUARD: real := 0.000000000001

  function GuardedQuotient(n: real, d: real): real {
    if Abs(d) < GUARD then 0.0 else n / d
  }

  function Advance(start: real, t: real, d: real): real {
    start + t * d
  }

  function Meet(h: Half, a: Point, b: Point): Point {
    var t := Parameter(h, a, b);
    if h.vertical then Point(h.at, Advance(a.y, t, b.y - a.y)) else Point(Advance(a.x, t, b.x - a.x), h.at)
  }

  function Emit(h: Half, previous: Point, current: Point): seq<Point> {
    if In(h, current) then (if In(h, previous) then [current] else [Meet(h, previous, current), current])
    else if In(h, previous) then [Meet(h, previous, current)]
    else []
  }

  function ClipPath(h: Half, previous: Point, path: seq<Point>): seq<Point>
    decreases |path|
  {
    if path == [] then [] else Emit(h, previous, path[0]) + ClipPath(h, path[0], path[1..])
  }

  function Clip(h: Half, polygon: seq<Point>): seq<Point> {
    if polygon == [] then [] else ClipPath(h, polygon[|polygon| - 1], polygon)
  }

  /** `inside`. */
  function Inside(p: Point, box: Box, edge: Edge): (b: bool)
    ensures b == In(HalfOf(box, edge), p)
  {
    match edge
    case Left => p.x >= box.xMin
    case Right => p.x <= box.xMax
    case Top => p.y >= box.yMin
    case Bottom => p.y <= box.yMax
  }

  /** `intersection`. */
  function Intersection(a: Point, b: Point, box: Box, edge: Edge): (p: Point)
    ensures p == Meet(HalfOf(box, edge), a, b)
  {
    var dx, dy := b.x - a.x, b.y - a.y;
    if edge == Left || edge == Right then
      var x := if edge == Left then box.xMin else box.xMax;
      var t := GuardedQuotient(x - a.x, dx);
      Point(x, Advance(a.y, t, dy))
    else
      var y := if edge == Top then box.yMin else box.yMax;
      var t := GuardedQuotient(y - a.y, dy);
      Point(Advance(a.x, t, dx), y)
  }

  lemma {:induction false} ClipPathAppend(h: Half, previous: Point, a: seq<Point>, b: seq<Point>)
    ensures ClipPath(h, previous, a + b) == ClipPath(h, previous, a) + ClipPath(h, Last(a, previous), b)
    decreases |a|
  {
    if a == [] {
      assert a + b == b;
    } else {
      assert (a + b)[1..] == a[1..] + b;
      ClipPathAppend(h, a[0], a[1..], b);
      assert Last(a, previous) == Last(a[1..], a[0]);
    }
  }

  method ComputeClip(input: seq<Point>, box: Box, edge: Edge) returns (output: seq<Point>)
    ensures output == Clip(HalfOf(box, edge), input)
  {
    output := [];
    if input == [] {
      return;
    }
    ghost var h, start := HalfOf(box, edge), input[|input| - 1];
    var previous := input[|input| - 1];
    var i := 0;
    while i < |input|
      invariant i <= |input| && previous == Last(input[..i], start)
      invariant output == ClipPath(h, start, input[..i])
    {
      var current := input[i];
      assert input[..i + 1] == input[..i] + [current];
      ClipPathAppend(h, start, input[..i], [current]);
      assert ClipPath(h, previous, [current]) == Emit(h, previous, current) + ClipPath(h, current, [current][1..]);
      var currentInside, previousInside := Inside(current, box, edge), Inside(previous, box, edge);
      if currentInside {
        if !previousInside {
          output := output + [Intersection(previous, current, box, edge)];
        }
        output := output + [current];
      } else if previousInside {
        output := output + [Intersection(previous, current, box, edge)];
      }
      previous := current;
      i := i + 1;
    }
    assert input[..|input|] == input;
  }

  // ---------------------------------------------------------------- conservation of area

  /** What an edge contributes to the sum of the clipped polygon, counting each stretch along the
      line from the level of the axis. */
  function Share(h: Half, a: Point, b: Point): real {
    var m := Meet(h, a, b);
    if In(h, a) && In(h, b) then Cross(a, b)
    else if In(h, a) then Cross(a, m) - h.at * m.y
    else if In(h, b) then h.at * m.y + Cross(m, b)
    else 0.0
  }

  function Shares(h: Half, previous: Point, path: seq<Point>): real
    decreases |path|
  {
    if path == [] then 0.0 else Share(h, previous, path[0]) + Shares(h, path[0], path[1..])
  }

  /** `q` is where the output stands when the input stands at `p`. */
  predicate Link(h: Half, p: Point, q: Point) {
    if In(h, p) then q == p else q.x == h.at
  }

  function Level(h: Half, p: Point, q: Point): real {
    if In(h, p) then 0.0 else h.at * q.y
  }

  lemma EmittedShare(h: Half, a: Point, b: Point, q: Point)
    requires h.vertical && Link(h, a, q)
    ensures var e := Emit(h, a, b);
            Link(h, b, Last(e, q)) && PathSum(q, e) == Share(h, a, b) - Level(h, a, q) + Level(h, b, Last(e, q))
  {
    var m := Meet(h, a, b);
    assert m.x == h.at;
    if In(h, b) && !In(h, a) {
      assert [m, b][1..] == [b] && [b][1..] == [];
      assert PathSum(q, [m, b]) == Cross(q, m) + (Cross(m, b) + PathSum(b, []));
    } else if In(h, b) {
      assert PathSum(q, [b]) == Cross(q, b) + PathSum(b, [b][1..]);
    } else if In(h, a) {
      assert PathSum(q, [m]) == Cross(q, m) + PathSum(m, [m][1..]);
    }
  }

  lemma {:induction false} OpenShares(h: Half, previous: Point, path: seq<Point>, q: Point)
    requires h.vertical && Link(h, previous, q)
    ensures var out := ClipPath(h, previous, path);
            Link(h, Last(path, previous), Last(out, q)) &&
            PathSum(q, out) ==
            Shares(h, previous, path) - Level(h, previous, q) + Level(h, Last(path, previous), Last(out, q))
    decreases |path|
  {
    if path != [] {
      var e := Emit(h, previous, path[0]);
      EmittedShare(h, previous, path[0], q);
      OpenShares(h, path[0], path[1..], Last(e, q));
      PathSumAppend(q, e, ClipPath(h, path[0], path[1..]));
      assert Last(path, previous) == Last(path[1..], path[0]);
      assert Last(e + ClipPath(h, path[0], path[1..]), q) == Last(ClipPath(h, path[0], path[1..]), Last(e, q));
    }
  }

  /** The sum of a clipped polygon is the sum of the shares of its edges. */
  lemma ClosedShares(h: Half, polygon: seq<Point>)
    requires h.vertical && polygon != []
    ensures SignedSum(Clip(h, polygon)) == Shares(h, polygon[|polygon| - 1], polygon)
  {
    var last := polygon[|polygon| - 1];
    var out := Clip(h, polygon);
    var q := if In(h, last) then last else Point(h.at, 0.0);
    OpenShares(h, last, polygon, q);
    if out != [] {
      OpenShares(h, last, polygon, Last(out, q));
    }
  }

  /** An edge that crosses the line, but so flatly that the guard moves its intersection. */
  predicate Guarded(h: Half, a: Point, b: Point) {
    var d := Across(h, b) - Across(h, a);
    (Across(h, a) < h.at < Across(h, b) || Across(h, b) < h.at < Across(h, a)) && Abs(d) < GUARD
  }

  /** Twice the signed area of the triangle that the guard cuts off or adds. */
  function Defect(h: Half, a: Point, b: Point): real {
    if Guarded(h, a, b) then (h.at - Across(h, a)) * (if h.vertical then b.y - a.y else a.x - b.x) else 0.0
  }

  function Defects(h: Half, previous: Point, path: seq<Point>): real
    decreases |path|
  {
    if path == [] then 0.0 else Defect(h, previous, path[0]) + Defects(h, path[0], path[1..])
  }

  function TotalDefect(h: Half, polygon: seq<Point>): real {
    if polygon == [] then 0.0 else Defects(h, polygon[|polygon| - 1], polygon)
  }

  function Opposite(h: Half): Half {
    h.(above := !h.above)
  }

  function OnLine(h: Half, p: Point): real {
    if p.x == h.at then h.at * p.y else 0.0
  }

  lemma MeetOnEdge(h: Half, a: Point, b: Point)
    requires h.vertical && Abs(b.x - a.x) >= GUARD
    ensures var m := Meet(h, a, b); Cross(a, m) + Cross(m, b) == Cross(a, b)
    ensures a.x == h.at ==> Meet(h, a, b) == a
    ensures b.x == h.at ==> Meet(h, a, b) == b
  {
    var t, dx, dy := Parameter(h, a, b), b.x - a.x, b.y - a.y;
    assert t * dx == h.at - a.x;
    var m := Meet(h, a, b);
    assert m.y == a.y + t * dy;
    SplitCross(a, b, h.at, t);
  }

  lemma SplitCross(a: Point, b: Point, at: real, t: real)
    requires t * (b.x - a.x) == at - a.x
    ensures var m := Point(at, a.y + t * (b.y - a.y)); Cross(a, m) + Cross(m, b) == Cross(a, b)
  {
    var dx, dy := b.x - a.x, b.y - a.y;
    assert (t * dx) * dy == (at - a.x) * dy;
    assert (t * dy) * dx == (t * dx) * dy;
    var y := a.y + t * dy;
    assert a.x * y - at * a.y + (at * b.y - b.x * y) == at * dy - dx * y;
    assert dx * y == dx * a.y + dx * (t * dy);
  }

  /** The two sides of the line share every edge between them. */
  lemma SharesOfBothSides(h: Half, a: Point, b: Point)
    requires h.vertical && h.above
    ensures Share(h, a, b) + Share(Opposite(h), a, b) ==
            Cross(a, b) + OnLine(h, b) - OnLine(h, a) + Defect(h, a, b)
  {
    var m := Meet(h, a, b);
    assert Meet(Opposite(h), a, b) == m && m.x == h.at;
    if Abs(b.x - a.x) >= GUARD {
      MeetOnEdge(h, a, b);
    } else {
      assert m == Point(h.at, a.y);
    }
  }

  lemma {:induction false} SharesAlongPath(h: Half, previous: Point, path: seq<Point>)
    requires h.vertical && h.above
    ensures Shares(h, previous, path) + Shares(Opposite(h), previous, path) ==
            PathSum(previous, path) + OnLine(h, Last(path, previous)) - OnLine(h, previous) + Defects(h, previous, path)
    decreases |path|
  {
    if path != [] {
      SharesOfBothSides(h, previous, path[0]);
      SharesAlongPath(h, path[0], path[1..]);
      assert Last(path, previous) == Last(path[1..], path[0]);
    }
  }

  lemma VerticalConservation(h: Half, polygon: seq<Point>)
    requires h.vertical && h.above
    ensures SignedSum(Clip(h, polygon)) + SignedSum(Clip(Opposite(h), polygon)) ==
            SignedSum(polygon) + TotalDefect(h, polygon)
  {
    if polygon != [] {
      ClosedShares(h, polygon);
      ClosedShares(Opposite(h), polygon);
      SharesAlongPath(h, polygon[|polygon| - 1], polygon);
    }
  }

  // ---------------------------------------------------------------- horizontal lines, by transposition

  function Swap(p: Point): Point {
    Point(p.y, p.x)
  }

  function SwapAll(path: seq<Point>): (s: seq<Point>)
    ensures |s| == |path|
  {
    seq(|path|, i requires 0 <= i < |path| => Swap(path[i]))
  }

  function Flip(h: Half): Half {
    h.(vertical := !h.vertical)
  }

  lemma {:induction false} ClipPathSwapped(h: Half, previous: Point, path: seq<Point>)
    ensures ClipPath(Flip(h), Swap(previous), SwapAll(path)) == SwapAll(ClipPath(h, previous, path))
    decreases |path|
  {
    if path != [] {
      assert SwapAll(path)[1..] == SwapAll(path[1..]);
      ClipPathSwapped(h, path[0], path[1..]);
      assert Emit(Flip(h), Swap(previous), Swap(path[0])) == SwapAll(Emit(h, previous, path[0]));
    }
  }

  lemma {:induction false} PathSumSwapped(from: Point, path: seq<Point>)
    ensures PathSum(Swap(from), SwapAll(path)) == -PathSum(from, path)
    decreases |path|
  {
    if path != [] {
      assert SwapAll(path)[1..] == SwapAll(path[1..]);
      PathSumSwapped(path[0], path[1..]);
    }
  }

  lemma SignedSumSwapped(polygon: seq<Point>)
    ensures SignedSum(SwapAll(polygon)) == -SignedSum(polygon)
  {
    if polygon != [] {
      PathSumSwapped(polygon[|polygon| - 1], polygon);
    }
  }

  lemma DefectSwapped(h: Half, a: Point, b: Point)
    ensures Defect(Flip(h), Swap(a), Swap(b)) == -Defect(h, a, b)
  {
    var across := h.at - Across(h, a);
    var along := if h.vertical then b.y - a.y else a.x - b.x;
    assert Guarded(Flip(h), Swap(a), Swap(b)) == Guarded(h, a, b);
    assert across * -along == -(across * along);
  }

  lemma {:induction false} DefectsSwapped(h: Half, previous: Point, path: seq<Point>)
    ensures Defects(Flip(h), Swap(previous), SwapAll(path)) == -Defects(h, previous, path)
    decreases |path|
  {
    if path != [] {
      assert SwapAll(path)[1..] == SwapAll(path[1..]);
      DefectSwapped(h, previous, path[0]);
      DefectsSwapped(h, path[0], path[1..]);
    }
  }

  lemma DefectOpposite(h: Half, a: Point, b: Point)
    ensures Defect(Opposite(h), a, b) == Defect(h, a, b)
  {
    assert Guarded(Opposite(h), a, b) == Guarded(h, a, b);
  }

  lemma {:induction false} DefectsOpposite(h: Half, previous: Point, path: seq<Point>)
    ensures Defects(Opposite(h), previous, path) == Defects(h, previous, path)
    decreases |path|
  {
    if path != [] {
      DefectOpposite(h, previous, path[0]);
      DefectsOpposite(h, path[0], path[1..]);
    }
  }

  /** Conservation of area: for every vertex list and every line along an axis, the two clipped
      halves carry the signed area of the whole, up to exactly the triangles of the edges that
      cross the line under the guard. */
  lemma ClipConservesArea(h: Half, polygon: seq<Point>)
    ensures SignedSum(Clip(h, polygon)) + SignedSum(Clip(Opposite(h), polygon)) ==
            SignedSum(polygon) + TotalDefect(h, polygon)
  {
    if !h.above {
      if polygon != [] {
        DefectsOpposite(h, polygon[|polygon| - 1], polygon);
      }
      AboveConservation(Opposite(h), polygon);
    } else {
      AboveConservation(h, polygon);
    }
  }

  lemma AboveConservation(h: Half, polygon: seq<Point>)
    requires h.above
    ensures SignedSum(Clip(h, polygon)) + SignedSum(Clip(Opposite(h), polygon)) ==
            SignedSum(polygon) + TotalDefect(h, polygon)
  {
    if h.vertical {
      VerticalConservation(h, polygon);
    } else if polygon != [] {
      var last, swapped := polygon[|polygon| - 1], SwapAll(polygon);
      VerticalConservation(Flip(h), swapped);
      ClipPathSwapped(h, last, polygon);
      ClipPathSwapped(Opposite(h), last, polygon);
      SignedSumSwapped(Clip(h, polygon));
      SignedSumSwapped(Clip(Opposite(h), polygon));
      SignedSumSwapped(polygon);
      DefectsSwapped(h, last, polygon);
      assert Opposite(Flip(h)) == Flip(Opposite(h));
    }
  }

  /** No edge crosses the line under the guard. */
  predicate NoneGuardedFrom(h: Half, previous: Point, path: seq<Point>)
    decreases |path|
  {
    path == [] || (!Guarded(h, previous, path[0]) && NoneGuardedFrom(h, path[0], path[1..]))
  }

  predicate NoneGuarded(h: Half, polygon: seq<Point>) {
    polygon == [] || NoneGuardedFrom(h, polygon[|polygon| - 1], polygon)
  }

  lemma {:induction false} NoDefects(h: Half, previous: Point, path: seq<Point>)
    requires NoneGuardedFrom(h, previous, path)
    ensures Defects(h, previous, path) == 0.0
    decreases |path|
  {
    if path != [] {
      NoDefects(h, path[0], path[1..]);
    }
  }

  /** Without guarded crossings, nothing is lost. */
  lemma ClipConservesAreaExactly(h: Half, polygon: seq<Point>)
    requires NoneGuarded(h, polygon)
    ensures SignedSum(Clip(h, polygon)) + SignedSum(Clip(Opposite(h), polygon)) == SignedSum(polygon)
  {
    ClipConservesArea(h, polygon);
    if polygon != [] {
      NoDefects(h, polygon[|polygon| - 1], polygon);
    }
  }

  lemma {:induction false} DefectsBounded(h: Half, previous: Point, path: seq<Point>)
    requires InUnitSquare(previous) && forall i :: 0 <= i < |path| ==> InUnitSquare(path[i])
    ensures Abs(Defects(h, previous, path)) <= |path| as real * GUARD
    decreases |path|
  {
    if path != [] {
      DefectBounded(h, previous, path[0]);
      DefectsBounded(h, path[0], path[1..]);
    }
  }

  lemma DefectBounded(h: Half, a: Point, b: Point)
    requires InUnitSquare(a) && InUnitSquare(b)
    ensures Abs(Defect(h, a, b)) <= GUARD
  {
    if Guarded(h, a, b) {
      var u := h.at - Across(h, a);
      var v := if h.vertical then b.y - a.y else a.x - b.x;
      ProductBounded(u, v);
      assert Defect(h, a, b) == u * v;
    }
  }

  lemma PartBounded(x: real, y: real)
    requires 0.0 <= x <= GUARD && 0.0 <= y <= 1.0
    ensures 0.0 <= x * y <= GUARD
  {
    PartOf(y, x);
    assert x * y == y * x;
  }

  lemma NegatedFactor(u: real, v: real)
    ensures u * -v == -(u * v) && -u * v == -(u * v) && -u * -v == u * v
  {
  }

  lemma ProductBounded(u: real, v: real)
    requires Abs(u) <= GUARD && Abs(v) <= 1.0
    ensures Abs(u * v) <= GUARD
  {
    NegatedFactor(u, v);
    if u >= 0.0 && v >= 0.0 {
      PartBounded(u, v);
    } else if u >= 0.0 {
      PartBounded(u, -v);
    } else if v >= 0.0 {
      PartBounded(-u, v);
    } else {
      PartBounded(-u, -v);
    }
  }

  /** In the unit square the guard misplaces at most its own size for each vertex. */
  lemma ClipLosesLittle(h: Half, polygon: seq<Point>)
    requires forall i :: 0 <= i < |polygon| ==> InUnitSquare(polygon[i])
    ensures Abs(SignedSum(Clip(h, polygon)) + SignedSum(Clip(Opposite(h), polygon)) - SignedSum(polygon)) <=
            |polygon| as real * GUARD
  {
    ClipConservesArea(h, polygon);
    if polygon != [] {
      DefectsBounded(h, polygon[|polygon| - 1], polygon);
    }
  }

  // ---------------------------------------------------------------- containment

  predicate AllIn(h: Half, path: seq<Point>) {
    forall i :: 0 <= i < |path| ==> In(h, path[i])
  }

  lemma {:induction false} ClipIsInside(h: Half, previous: Point, path: seq<Point>)
    ensures AllIn(h, ClipPath(h, previous, path))
    decreases |path|
  {
    if path != [] {
      ClipIsInside(h, path[0], path[1..]);
      assert AllIn(h, Emit(h, previous, path[0]));
    }
  }

  /** The parameter of a crossing edge lies between its ends. */
  lemma ParameterInRange(h: Half, a: Point, b: Point)
    requires In(h, a) != In(h, b)
    ensures 0.0 <= Parameter(h, a, b) <= 1.0
  {
    var n, d := h.at - Across(h, a), Across(h, b) - Across(h, a);
    if Abs(d) >= GUARD {
      var t := n / d;
      assert t * d == n;
      if d > 0.0 {
        assert 0.0 <= n <= d;
        FractionInRange(n, d, t);
      } else {
        assert d <= n <= 0.0;
        assert t * (-d) == -n;
        FractionInRange(-n, -d, t);
      }
    }
  }

  lemma SignOfProduct(t: real, d: real)
    requires d > 0.0
    ensures (t < 0.0 ==> t * d < 0.0) && (t > 1.0 ==> t * d > d)
  {
    if t > 1.0 {
      assert (t - 1.0) * d > 0.0;
    }
  }

  lemma FractionInRange(n: real, d: real, t: real)
    requires 0.0 <= n <= d && d > 0.0 && t * d == n
    ensures 0.0 <= t <= 1.0
  {
    SignOfProduct(t, d);
  }

  lemma PartOf(t: real, d: real)
    requires 0.0 <= t <= 1.0 && d >= 0.0
    ensures 0.0 <= t * d <= d
  {
    assert (1.0 - t) * d >= 0.0;
  }

  lemma PartOfNegated(t: real, d: real)
    requires 0.0 <= t <= 1.0 && d <= 0.0
    ensures d <= t * d <= 0.0
  {
    assert (1.0 - t) * d <= 0.0;
  }

  lemma AdvanceUp(start: real, d: real, t: real)
    requires 0.0 <= t <= 1.0 && d >= 0.0
    ensures start <= Advance(start, t, d) <= start + d
  {
    PartOf(t, d);
  }

  lemma AdvanceDown(start: real, d: real, t: real)
    requires 0.0 <= t <= 1.0 && d <= 0.0
    ensures start + d <= Advance(start, t, d) <= start
  {
    PartOfNegated(t, d);
  }

  ghost predicate Between(x: real, a: real, b: real) {
    (a <= x || b <= x) && (x <= a || x <= b)
  }

  lemma BetweenEnds(start: real, end: real, t: real)
    requires 0.0 <= t <= 1.0
    ensures Between(Advance(start, t, end - start), start, end)
  {
    var d := end - start;
    var x := Advance(start, t, d);
    if d >= 0.0 {
      AdvanceUp(start, d, t);
    } else {
      AdvanceDown(start, d, t);
    }
  }

  /** An intersection satisfies every half-plane that both ends of the edge satisfy. */
  lemma MeetKeepsHalf(h: Half, g: Half, a: Point, b: Point)
    requires In(h, a) != In(h, b) && In(g, a) && In(g, b)
    ensures In(g, Meet(h, a, b))
  {
    ParameterInRange(h, a, b);
    var t := Parameter(h, a, b);
    BetweenEnds(a.x, b.x, t);
    BetweenEnds(a.y, b.y, t);
  }

  lemma {:induction false} ClipKeepsHalf(h: Half, g: Half, previous: Point, path: seq<Point>)
    requires In(g, previous) && AllIn(g, path)
    ensures AllIn(g, ClipPath(h, previous, path))
    decreases |path|
  {
    if path != [] {
      if In(h, previous) != In(h, path[0]) {
        MeetKeepsHalf(h, g, previous, path[0]);
      }
      assert AllIn(g, Emit(h, previous, path[0]));
      ClipKeepsHalf(h, g, path[0], path[1..]);
    }
  }

  /** A clip brings every vertex to its own side and moves none out of another half-plane. */
  lemma ClipContained(h: Half, g: Half, polygon: seq<Point>)
    ensures AllIn(h, Clip(h, polygon)) && (AllIn(g, polygon) ==> AllIn(g, Clip(h, polygon)))
  {
    if polygon != [] {
      ClipIsInside(h, polygon[|polygon| - 1], polygon);
      if AllIn(g, polygon) {
        ClipKeepsHalf(h, g, polygon[|polygon| - 1], polygon);
      }
    }
  }

  lemma {:induction false} ClipOfInside(h: Half, previous: Point, path: seq<Point>)
    requires In(h, previous) && AllIn(h, path)
    ensures ClipPath(h, previous, path) == path
    decreases |path|
  {
    if path != [] {
      ClipOfInside(h, path[0], path[1..]);
    }
  }

  /** A clip changes nothing exactly when every vertex was already on its side. */
  lemma ClipIsIdentity(h: Half, polygon: seq<Point>)
    ensures Clip(h, polygon) == polygon <==> AllIn(h, polygon)
  {
    if polygon != [] {
      ClipContained(h, h, polygon);
      if AllIn(h, polygon) {
        ClipOfInside(h, polygon[|polygon| - 1], polygon);
      }
    }
  }

  // ---------------------------------------------------------------- the number of vertices

  function CountIn(h: Half, path: seq<Point>): nat
    decreases |path|
  {
    if path == [] then 0 else (if In(h, path[0]) then 1 else 0) + CountIn(h, path[1..])
  }

  function Crossings(h: Half, inward: bool, previous: Point, path: seq<Point>): nat
    decreases |path|
  {
    if path == [] then 0
    else (if In(h, previous) != inward && In(h, path[0]) == inward then 1 else 0) +
         Crossings(h, inward, path[0], path[1..])
  }

  lemma {:induction false} CountEmitted(h: Half, previous: Point, path: seq<Point>)
    ensures |ClipPath(h, previous, path)| ==
            CountIn(h, path) + Crossings(h, true, previous, path) + Crossings(h, false, previous, path)
    ensures Crossings(h, true, previous, path) <= CountIn(h, path)
    ensures Crossings(h, false, previous, path) <= |path| - CountIn(h, path)
    ensures Crossings(h, true, previous, path) + (if In(h, previous) then 1 else 0) ==
            Crossings(h, false, previous, path) + (if In(h, Last(path, previous)) then 1 else 0)
    decreases |path|
  {
    if path != [] {
      CountEmitted(h, path[0], path[1..]);
      assert Last(path, previous) == Last(path[1..], path[0]);
    }
  }

  /** A pass adds at most one vertex for every two. */
  lemma ClipSize(h: Half, polygon: seq<Point>)
    ensures |Clip(h, polygon)| <= |polygon| + |polygon| / 2
  {
    if polygon != [] {
      CountEmitted(h, polygon[|polygon| - 1], polygon);
    }
  }

  // ---------------------------------------------------------------- the four passes

  function ClipLeft(box: Box, polygon: seq<Point>): seq<Point> {
    Clip(HalfOf(box, Left), polygon)
  }

  function ClipSides(box: Box, polygon: seq<Point>): seq<Point> {
    Clip(HalfOf(box, Right), ClipLeft(box, polygon))
  }

  function ClipTop(box: Box, polygon: seq<Point>): seq<Point> {
    Clip(HalfOf(box, Top), ClipSides(box, polygon))
  }

  function ClipBox(box: Box, polygon: seq<Point>): seq<Point> {
    Clip(HalfOf(box, Bottom), ClipTop(box, polygon))
  }

  predicate InBox(box: Box, p: Point) {
    box.xMin <= p.x <= box.xMax && box.yMin <= p.y <= box.yMax
  }

  predicate AllInBox(box: Box, polygon: seq<Point>) {
    forall i :: 0 <= i < |polygon| ==> InBox(box, polygon[i])
  }

  lemma BoxIsFourHalves(box: Box, polygon: seq<Point>)
    ensures AllInBox(box, polygon) <==>
            AllIn(HalfOf(box, Left), polygon) && AllIn(HalfOf(box, Right), polygon) &&
            AllIn(HalfOf(box, Top), polygon) && AllIn(HalfOf(box, Bottom), polygon)
  {
    if AllIn(HalfOf(box, Left), polygon) && AllIn(HalfOf(box, Right), polygon) &&
       AllIn(HalfOf(box, Top), polygon) && AllIn(HalfOf(box, Bottom), polygon) {
      forall i | 0 <= i < |polygon| ensures InBox(box, polygon[i]) {
        assert In(HalfOf(box, Left), polygon[i]) && In(HalfOf(box, Right), polygon[i]);
        assert In(HalfOf(box, Top), polygon[i]) && In(HalfOf(box, Bottom), polygon[i]);
      }
    }
  }

  /** After the four passes every vertex lies in the closed box. */
  lemma ClipBoxContained(box: Box, polygon: seq<Point>)
    ensures AllInBox(box, ClipBox(box, polygon))
  {
    var l, r, t, b := HalfOf(box, Left), HalfOf(box, Right), HalfOf(box, Top), HalfOf(box, Bottom);
    ClipContained(l, l, polygon);
    ClipContained(r, l, ClipLeft(box, polygon));
    ClipContained(t, l, ClipSides(box, polygon));
    ClipContained(t, r, ClipSides(box, polygon));
    ClipContained(b, l, ClipTop(box, polygon));
    ClipContained(b, r, ClipTop(box, polygon));
    ClipContained(b, t, ClipTop(box, polygon));
    BoxIsFourHalves(box, ClipBox(box, polygon));
  }

  /** The four passes change nothing exactly when the polygon was in the box; so a second clip
      never changes anything. */
  lemma ClipBoxIdempotent(box: Box, polygon: seq<Point>)
    ensures ClipBox(box, polygon) == polygon <==> AllInBox(box, polygon)
    ensures ClipBox(box, ClipBox(box, polygon)) == ClipBox(box, polygon)
  {
    ClipBoxContained(box, polygon);
    UnchangedInBox(box, ClipBox(box, polygon));
    if AllInBox(box, polygon) {
      UnchangedInBox(box, polygon);
    }
  }

  lemma UnchangedInBox(box: Box, polygon: seq<Point>)
    requires AllInBox(box, polygon)
    ensures ClipBox(box, polygon) == polygon
  {
    BoxIsFourHalves(box, polygon);
    ClipIsIdentity(HalfOf(box, Left), polygon);
    ClipIsIdentity(HalfOf(box, Right), polygon);
    ClipIsIdentity(HalfOf(box, Top), polygon);
    ClipIsIdentity(HalfOf(box, Bottom), polygon);
  }

  /** The clipped polygon and the four pieces cut from it carry the signed area of the original. */
  lemma ClipBoxConservesArea(box: Box, polygon: seq<Point>)
    ensures SignedSum(ClipBox(box, polygon)) +
            SignedSum(Clip(Opposite(HalfOf(box, Left)), polygon)) +
            SignedSum(Clip(Opposite(HalfOf(box, Right)), ClipLeft(box, polygon))) +
            SignedSum(Clip(Opposite(HalfOf(box, Top)), ClipSides(box, polygon))) +
            SignedSum(Clip(Opposite(HalfOf(box, Bottom)), ClipTop(box, polygon))) ==
            SignedSum(polygon) +
            TotalDefect(HalfOf(box, Left), polygon) + TotalDefect(HalfOf(box, Right), ClipLeft(box, polygon)) +
            TotalDefect(HalfOf(box, Top), ClipSides(box, polygon)) +
            TotalDefect(HalfOf(box, Bottom), ClipTop(box, polygon))
  {
    ClipConservesArea(HalfOf(box, Left), polygon);
    ClipConservesArea(HalfOf(box, Right), ClipLeft(box, polygon));
    ClipConservesArea(HalfOf(box, Top), ClipSides(box, polygon));
    ClipConservesArea(HalfOf(box, Bottom), ClipTop(box, polygon));
  }

  function IntersectionArea(box: Box, polygon: seq<Point>): real {
    if !ValidBox(box) || !ValidPolygon(polygon) then 0.0 else PolygonArea(ClipBox(box, polygon))
  }

  ghost function Passes(box: Box, polygon: seq<Point>): (p: seq<seq<Point>>)
    ensures |p| == 5
  {
    [polygon, ClipLeft(box, polygon), ClipSides(box, polygon), ClipTop(box, polygon), ClipBox(box, polygon)]
  }

  const EDGES: seq<Edge> := [Left, Right, Top, Bottom]

  lemma PassesFollow(box: Box, polygon: seq<Point>, i: nat)
    requires i < 4
    ensures Passes(box, polygon)[i + 1] == Clip(HalfOf(box, EDGES[i]), Passes(box, polygon)[i])
    ensures Passes(box, polygon)[i + 1] == [] ==> ClipBox(box, polygon) == []
  {
  }

  /** The loop over the four edges, with its early return for an empty intersection. */
  method ComputeIntersectionArea(box: Box, polygon: seq<Point>) returns (area: real)
    ensures area == IntersectionArea(box, polygon)
  {
    var validPolygon := IsValidPolygon(polygon);
    if !ValidBox(box) || !validPolygon {
      return 0.0;
    }
    var clipped := polygon;
    ghost var passes := Passes(box, polygon);
    var i := 0;
    while i < 4
      invariant i <= 4 && clipped == passes[i]
    {
      PassesFollow(box, polygon, i);
      clipped := ComputeClip(clipped, box, EDGES[i]);
      i := i + 1;
      if clipped == [] {
        return 0.0;
      }
    }
    area := ComputePolygonArea(clipped);
  }

  method IsValidPolygon(polygon: seq<Point>) returns (valid: bool)
    ensures valid == ValidPolygon(polygon)
  {
    var area := ComputePolygonArea(polygon);
    if |polygon| < 3 || area < 0.0001 {
      return false;
    }
    var i := 0;
    while i < |polygon|
      invariant i <= |polygon| && forall j :: 0 <= j < i ==> InUnitSquare(polygon[j])
    {
      if !InUnitSquare(polygon[i]) {
        return false;
      }
      i := i + 1;
    }
    valid := true;
  }

  // ---------------------------------------------------------------- zones

  datatype Zone = Zone(name: string, points: seq<Point>)

  datatype ZoneMatch = ZoneMatch(zoneName: string, overlapRatio: real)

  const NO_ZONE := ZoneMatch("Unconfigured area", 0.0)

  function Ratio(box: Box, zone: Zone): real
    requires BoxArea(box) != 0.0
  {
    if ValidPolygon(zone.points) then IntersectionArea(box, zone.points) / BoxArea(box) else 0.0
  }

  /** `ratios` lists the overlap ratio of every zone. */
  ghost predicate Rated(box: Box, zones: seq<Zone>, ratios: seq<real>)
    requires BoxArea(box) != 0.0
  {
    && |ratios| == |zones|
    && forall i {:trigger Ratio(box, zones[i])} :: 0 <= i < |zones| ==> ratios[i] == Ratio(box, zones[i])
  }

  /** The value at `k` is positive, the greatest, and the first to be so. */
  ghost predicate FirstGreatest(ratios: seq<real>, k: nat) {
    && k < |ratios| && ratios[k] > 0.0
    && (forall j :: 0 <= j < |ratios| ==> ratios[j] <= ratios[k])
    && (forall j :: 0 <= j < k ==> ratios[j] < ratios[k])
  }

  lemma AreaOfValidBox(box: Box)
    ensures ValidBox(box) ==> BoxArea(box) > 0.0
  {
    if ValidBox(box) {
      var w, h := box.xMax - box.xMin, box.yMax - box.yMin;
      assert w * h > 0.0;
    }
  }

  method ZoneRatio(box: Box, zones: seq<Zone>, i: nat, ghost ratios: seq<real>) returns (ratio: real)
    requires i < |zones| && BoxArea(box) != 0.0 && Rated(box, zones, ratios)
    ensures ratio == ratios[i]
  {
    ghost var expected := Ratio(box, zones[i]);
    var valid := IsValidPolygon(zones[i].points);
    if !valid {
      return 0.0;
    }
    var area := ComputeIntersectionArea(box, zones[i].points);
    ratio := area / BoxArea(box);
  }

  /** The first zone of greatest positive overlap when that overlap is large enough, and otherwise no zone. */
  ghost predicate BestZone(zones: seq<Zone>, ratios: seq<real>, minimumOverlap: real, best: ZoneMatch)
    requires |ratios| == |zones|
  {
    if exists k: nat :: FirstGreatest(ratios, k) then
      forall k: nat :: FirstGreatest(ratios, k) ==>
        best == if ratios[k] >= minimumOverlap then ZoneMatch(zones[k].name, ratios[k]) else NO_ZONE
    else
      best == NO_ZONE
  }

  /** The answer for a given list of ratios is unique. */
  lemma BestZoneIsUnique(zones: seq<Zone>, ratios: seq<real>, minimumOverlap: real, a: ZoneMatch, b: ZoneMatch)
    requires |ratios| == |zones|
    requires BestZone(zones, ratios, minimumOverlap, a) && BestZone(zones, ratios, minimumOverlap, b)
    ensures a == b
  {
    if k: nat :| FirstGreatest(ratios, k) {
      assert a == if ratios[k] >= minimumOverlap then ZoneMatch(zones[k].name, ratios[k]) else NO_ZONE;
      assert b == a;
    }
  }

  method SelectZone(box: Box, zones: seq<Zone>, minimumOverlap: real, ghost ratios: seq<real>) returns (best: ZoneMatch)
    requires BoxArea(box) != 0.0 && Rated(box, zones, ratios)
    ensures BestZone(zones, ratios, minimumOverlap, best)
  {
    best := NO_ZONE;
    ghost var chosen := -1;
    var i := 0;
    while i < |zones|
      invariant i <= |zones| && -1 <= chosen < i && best.overlapRatio >= 0.0
      invariant if chosen == -1 then best == NO_ZONE
                else best == ZoneMatch(zones[chosen].name, ratios[chosen]) && best.overlapRatio > 0.0
      invariant forall j :: 0 <= j < i ==> ratios[j] <= best.overlapRatio
      invariant forall j :: 0 <= j < chosen ==> ratios[j] < best.overlapRatio
    {
      var ratio := ZoneRatio(box, zones, i, ratios);
      if ratio > best.overlapRatio {
        best := ZoneMatch(zones[i].name, ratio);
        chosen := i;
      }
      i := i + 1;
    }
    assert chosen >= 0 ==> FirstGreatest(ratios, chosen);
    if best.overlapRatio < minimumOverlap {
      best := NO_ZONE;
    }
  }

  method AssociateZone(box: Box, zones: seq<Zone>, minimumOverlap: real) returns (best: ZoneMatch)
    ensures !ValidBox(box) ==> best == NO_ZONE
    ensures ValidBox(box) ==>
              BoxArea(box) > 0.0 &&
              exists ratios :: Rated(box, zones, ratios) && BestZone(zones, ratios, minimumOverlap, best)
  {
    AreaOfValidBox(box);
    if !ValidBox(box) || BoxArea(box) <= 0.0 {
      return NO_ZONE;
    }
    ghost var ratios := seq(|zones|, i requires 0 <= i < |zones| => Ratio(box, zones[i]));
    best := SelectZone(box, zones, minimumOverlap, ratios);
  }
}
