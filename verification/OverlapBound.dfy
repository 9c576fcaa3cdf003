/** How much of a box a zone can cover: the overlap ratio is at most a quarter for each vertex of the
    clipped polygon, and a polygon that goes round the box several times attains that. */
module OverlapBound {
  import opened Geometry

  function Moved(c: Point, p: Point): Point {
    Point(p.x - c.x, p.y - c.y)
  }

  /** The shoelace terms along a path, seen from `c`. */
  function MovedSum(c: Point, from: Point, path: seq<Point>): real
    decreases |path|
  {
    if path == [] then 0.0 else Cross(Moved(c, from), Moved(c, path[0])) + MovedSum(c, path[0], path[1..])
  }

  /** What the move adds to the terms of a path that leads from `a` to `b`; nothing when it is closed. */
  function Shift(c: Point, a: Point, b: Point): real {
    c.y * (b.x - a.x) - c.x * (b.y - a.y)
  }

  lemma Distribute(c: real, a: real, b: real, d: real)
    ensures c * (b - a) + c * (d - b) == c * (d - a)
  {
  }

  lemma ShiftsJoin(c: Point, a: Point, b: Point, d: Point)
    ensures Shift(c, a, b) + Shift(c, b, d) == Shift(c, a, d)
  {
    Distribute(c.y, a.x, b.x, d.x);
    Distribute(c.x, a.y, b.y, d.y);
  }

  lemma ProductOfDifferences(a: real, b: real, c: real, d: real)
    ensures (a - b) * (c - d) == a * c - a * d - b * c + b * d
  {
  }

  lemma MovedCross(c: Point, a: Point, b: Point)
    ensures Cross(Moved(c, a), Moved(c, b)) == Cross(a, b) + Shift(c, a, b)
  {
    ProductOfDifferences(a.x, c.x, b.y, c.y);
    ProductOfDifferences(b.x, c.x, a.y, c.y);
  }

  lemma {:induction false} MovedSumShifts(c: Point, from: Point, path: seq<Point>)
    ensures MovedSum(c, from, path) == PathSum(from, path) + Shift(c, from, Last(path, from))
    decreases |path|
  {
    if path != [] {
      MovedCross(c, from, path[0]);
      MovedSumShifts(c, path[0], path[1..]);
      ShiftsJoin(c, from, path[0], Last(path, from));
      assert Last(path, from) == Last(path[1..], path[0]);
    }
  }

  /** Within `m` of the origin across and `n` along. */
  predicate Near(m: real, n: real, p: Point) {
    -m <= p.x <= m && -n <= p.y <= n
  }

  lemma ScaledDown(u: real, v: real, m: real, n: real)
    requires 0.0 <= u <= m && 0.0 <= v <= n
    ensures 0.0 <= u * v <= m * n
  {
    assert u * v <= m * v <= m * n;
  }

  lemma ProductNear(u: real, v: real, m: real, n: real)
    requires -m <= u <= m && -n <= v <= n
    ensures -(m * n) <= u * v <= m * n
  {
    NegatedFactor(u, v);
    ScaledDown(Abs(u), Abs(v), m, n);
  }

  lemma CrossNear(m: real, n: real, a: Point, b: Point)
    requires Near(m, n, a) && Near(m, n, b)
    ensures -2.0 * (m * n) <= Cross(a, b) <= 2.0 * (m * n)
  {
    ProductNear(a.x, b.y, m, n);
    ProductNear(b.x, a.y, m, n);
  }

  predicate AllNear(m: real, n: real, c: Point, path: seq<Point>) {
    forall i :: 0 <= i < |path| ==> Near(m, n, Moved(c, path[i]))
  }

  function Times(k: nat, r: real): real {
    if k == 0 then 0.0 else Times(k - 1, r) + r
  }

  lemma {:induction false} TimesIsProduct(k: nat, r: real)
    ensures Times(k, r) == k as real * r
  {
    if k > 0 {
      TimesIsProduct(k - 1, r);
      assert k as real == (k - 1) as real + 1.0;
      OneMore((k - 1) as real, r);
    }
  }

  lemma OneMore(k: real, r: real)
    ensures (k + 1.0) * r == k * r + r
  {
  }

  lemma {:induction false} MovedSumNear(m: real, n: real, r: real, c: Point, from: Point, path: seq<Point>)
    requires Near(m, n, Moved(c, from)) && AllNear(m, n, c, path) && r == 2.0 * (m * n)
    ensures Abs(MovedSum(c, from, path)) <= Times(|path|, r)
    decreases |path|
  {
    if path != [] {
      CrossNear(m, n, Moved(c, from), Moved(c, path[0]));
      forall i | 0 <= i < |path[1..]| ensures Near(m, n, Moved(c, path[1..][i])) {
        assert path[1..][i] == path[i + 1];
      }
      MovedSumNear(m, n, r, c, path[0], path[1..]);
      SumWithin(Cross(Moved(c, from), Moved(c, path[0])), MovedSum(c, path[0], path[1..]), r, |path| - 1);
    }
  }

  lemma SumWithin(x: real, y: real, r: real, k: nat)
    requires -r <= x <= r && Abs(y) <= Times(k, r)
    ensures Abs(x + y) <= Times(k + 1, r)
  {
  }

  lemma QuarterOfBox(box: Box)
    requires box.xMin <= box.xMax && box.yMin <= box.yMax
    ensures ((box.xMax - box.xMin) / 2.0) * ((box.yMax - box.yMin) / 2.0) == BoxArea(box) / 4.0
  {
    var w, h := box.xMax - box.xMin, box.yMax - box.yMin;
    assert BoxArea(box) == w * h;
    assert (w / 2.0) * (h / 2.0) == (w * h) / 4.0;
  }

  lemma ClosedSum(c: Point, polygon: seq<Point>)
    requires polygon != []
    ensures MovedSum(c, polygon[|polygon| - 1], polygon) == SignedSum(polygon)
  {
    var last := polygon[|polygon| - 1];
    MovedSumShifts(c, last, polygon);
    NoShift(c, last);
  }

  lemma NoShift(c: Point, a: Point)
    ensures Shift(c, a, a) == 0.0
  {
  }

  lemma SignedSumNear(m: real, n: real, r: real, c: Point, polygon: seq<Point>)
    requires polygon != [] && AllNear(m, n, c, polygon) && r == 2.0 * (m * n)
    ensures Abs(SignedSum(polygon)) <= Times(|polygon|, r)
  {
    ClosedSum(c, polygon);
    MovedSumNear(m, n, r, c, polygon[|polygon| - 1], polygon);
  }

  lemma NearCentre(low: real, high: real, x: real)
    requires low <= x <= high
    ensures -((high - low) / 2.0) <= x - (low + high) / 2.0 <= (high - low) / 2.0
  {
  }

  /** A polygon inside a box has at most a quarter of its area for each vertex. */
  lemma AreaInBox(box: Box, polygon: seq<Point>)
    requires box.xMin <= box.xMax && box.yMin <= box.yMax && AllInBox(box, polygon)
    ensures PolygonArea(polygon) <= Times(|polygon|, BoxArea(box) / 4.0)
  {
    if polygon != [] {
      var c := Point((box.xMin + box.xMax) / 2.0, (box.yMin + box.yMax) / 2.0);
      var m, n := (box.xMax - box.xMin) / 2.0, (box.yMax - box.yMin) / 2.0;
      forall i | 0 <= i < |polygon| ensures Near(m, n, Moved(c, polygon[i])) {
        assert InBox(box, polygon[i]);
        NearCentre(box.xMin, box.xMax, polygon[i].x);
        NearCentre(box.yMin, box.yMax, polygon[i].y);
      }
      QuarterOfBox(box);
      SignedSumNear(m, n, 2.0 * (BoxArea(box) / 4.0), c, polygon);
      Halved(|polygon|, BoxArea(box) / 4.0, Abs(SignedSum(polygon)));
    }
  }

  lemma Halved(k: nat, r: real, sum: real)
    requires sum <= Times(k, 2.0 * r)
    ensures sum / 2.0 <= Times(k, r)
  {
    TwiceTimes(k, r);
  }

  lemma {:induction false} TwiceTimes(k: nat, r: real)
    ensures Times(k, 2.0 * r) == 2.0 * Times(k, r)
  {
    if k > 0 {
      TwiceTimes(k - 1, r);
    }
  }

  lemma Quotient(a: real, k: nat, b: real)
    requires b > 0.0 && 0.0 <= a <= Times(k, b / 4.0)
    ensures 0.0 <= a / b <= k as real / 4.0
  {
    TimesIsProduct(k, b / 4.0);
    QuotientOfProduct(a, k as real, b);
  }

  lemma QuotientOfProduct(a: real, k: real, b: real)
    requires b > 0.0 && 0.0 <= a <= k * (b / 4.0)
    ensures 0.0 <= a / b <= k / 4.0
  {
    assert k * (b / 4.0) == (k / 4.0) * b;
    var q := a / b;
    assert q * b == a;
    if q > k / 4.0 {
      assert (q - k / 4.0) * b > 0.0;
      assert (q - k / 4.0) * b == q * b - (k / 4.0) * b;
    }
  }

  lemma IntersectionBounded(box: Box, polygon: seq<Point>)
    requires ValidBox(box)
    ensures 0.0 <= IntersectionArea(box, polygon) <= Times(|ClipBox(box, polygon)|, BoxArea(box) / 4.0)
  {
    ClipBoxContained(box, polygon);
    AreaInBox(box, ClipBox(box, polygon));
    AreaOfValidBox(box);
    TimesNotNegative(|ClipBox(box, polygon)|, BoxArea(box) / 4.0);
  }

  lemma {:induction false} TimesNotNegative(k: nat, r: real)
    requires r >= 0.0
    ensures Times(k, r) >= 0.0
  {
    if k > 0 {
      TimesNotNegative(k - 1, r);
    }
  }

  lemma RatioOfAreas(box: Box, zone: Zone)
    requires ValidBox(box) && BoxArea(box) > 0.0
    ensures Ratio(box, zone) == IntersectionArea(box, zone.points) / BoxArea(box)
  {
  }

  /** The overlap ratio of any zone is at most a quarter of the number of vertices of the clipped polygon. */
  lemma RatioBounded(box: Box, zone: Zone)
    requires ValidBox(box) && BoxArea(box) > 0.0
    ensures 0.0 <= Ratio(box, zone) <= |ClipBox(box, zone.points)| as real / 4.0
  {
    RatioOfAreas(box, zone);
    IntersectionBounded(box, zone.points);
    Quotient(IntersectionArea(box, zone.points), |ClipBox(box, zone.points)|, BoxArea(box));
  }

  // ---------------------------------------------------------------- the bound is attained

  /** The outline of a box. */
  function Outline(b: Box): (corners: seq<Point>)
    ensures |corners| == 4
  {
    [Point(b.xMin, b.yMin), Point(b.xMax, b.yMin), Point(b.xMax, b.yMax), Point(b.xMin, b.yMax)]
  }

  function Again(piece: seq<Point>, k: nat): (path: seq<Point>)
    ensures |path| == |piece| * k
  {
    if k == 0 then [] else Again(piece, k - 1) + piece
  }

  lemma OneMoreRound(from: Point, path: seq<Point>, piece: seq<Point>)
    requires piece != [] && Last(piece, from) == from && Last(path, from) == from
    ensures PathSum(from, path + piece) == PathSum(from, path) + PathSum(from, piece)
    ensures Last(path + piece, from) == from
  {
    PathSumAppend(from, path, piece);
  }

  lemma {:induction false} AgainSum(from: Point, piece: seq<Point>, k: nat, sum: real)
    requires piece != [] && Last(piece, from) == from && PathSum(from, piece) == sum
    ensures PathSum(from, Again(piece, k)) == Times(k, sum) && Last(Again(piece, k), from) == from
  {
    if k > 0 {
      AgainSum(from, piece, k - 1, sum);
      OneMoreRound(from, Again(piece, k - 1), piece);
    }
  }

  lemma AgainSigned(piece: seq<Point>, k: nat, sum: real)
    requires k > 0 && piece != [] && SignedSum(piece) == sum
    ensures SignedSum(Again(piece, k)) == k as real * sum
  {
    var last := piece[|piece| - 1];
    AgainSum(last, piece, k, sum);
    assert Again(piece, k) == Again(piece, k - 1) + piece;
    TimesIsProduct(k, sum);
  }

  lemma {:induction false} AgainInBox(box: Box, piece: seq<Point>, k: nat)
    requires AllInBox(box, piece)
    ensures AllInBox(box, Again(piece, k))
  {
    if k > 0 {
      AgainInBox(box, piece, k - 1);
    }
  }

  lemma SumOfFour(a: Point, b: Point, c: Point, d: Point)
    ensures SignedSum([a, b, c, d]) == Cross(d, a) + Cross(a, b) + Cross(b, c) + Cross(c, d)
  {
    assert [a, b, c, d][1..] == [b, c, d] && [b, c, d][1..] == [c, d] && [c, d][1..] == [d] && [d][1..] == [];
    assert PathSum(c, [d]) == Cross(c, d);
    assert PathSum(b, [c, d]) == Cross(b, c) + PathSum(c, [d]);
    assert PathSum(a, [b, c, d]) == Cross(a, b) + PathSum(b, [c, d]);
  }

  lemma OutlineSum(b: Box)
    ensures SignedSum(Outline(b)) == 2.0 * ((b.xMax - b.xMin) * (b.yMax - b.yMin))
  {
    SumOfFour(Outline(b)[0], Outline(b)[1], Outline(b)[2], Outline(b)[3]);
    ProductOfDifferences(b.xMax, b.xMin, b.yMax, b.yMin);
  }

  /** A box, traced several times. */
  function Rounds(b: Box, k: nat): (polygon: seq<Point>)
    ensures |polygon| == 4 * k
  {
    Again(Outline(b), k)
  }

  lemma RoundsArea(b: Box, k: nat)
    requires ValidBox(b) && k > 0
    ensures PolygonArea(Rounds(b, k)) == Times(k, BoxArea(b))
  {
    var area := (b.xMax - b.xMin) * (b.yMax - b.yMin);
    assert area == BoxArea(b);
    OutlineSum(b);
    AgainSigned(Outline(b), k, 2.0 * area);
    AreaOfValidBox(b);
    Doubled(k as real, area);
    TimesIsProduct(k, area);
  }

  lemma Doubled(k: real, r: real)
    requires k >= 0.0 && r >= 0.0
    ensures Abs(k * (2.0 * r)) / 2.0 == k * r
  {
    assert k * (2.0 * r) == 2.0 * (k * r);
    ScaledDown(k, r, k, r);
  }

  lemma RoundsInBox(b: Box, k: nat)
    requires ValidBox(b)
    ensures AllInBox(b, Rounds(b, k)) && ClipBox(b, Rounds(b, k)) == Rounds(b, k)
    ensures forall i :: 0 <= i < |Rounds(b, k)| ==> InUnitSquare(Rounds(b, k)[i])
  {
    AgainInBox(b, Outline(b), k);
    ClipBoxIdempotent(b, Rounds(b, k));
    forall i | 0 <= i < |Rounds(b, k)| ensures InUnitSquare(Rounds(b, k)[i]) {
      assert InBox(b, Rounds(b, k)[i]);
    }
  }

  lemma Multiple(a: real, k: nat, b: real)
    requires b > 0.0 && a == Times(k, b)
    ensures a / b == k as real
  {
    TimesIsProduct(k, b);
    MultipleOver(k as real, b);
  }

  lemma MultipleOver(k: real, b: real)
    requires b > 0.0
    ensures (k * b) / b == k
  {
  }

  lemma RoundsCovered(box: Box, k: nat)
    requires ValidBox(box) && k > 0 && Times(k, BoxArea(box)) >= 0.0001
    ensures ValidPolygon(Rounds(box, k)) && IntersectionArea(box, Rounds(box, k)) == Times(k, BoxArea(box))
  {
    RoundsArea(box, k);
    RoundsInBox(box, k);
  }

  /** A zone that traces any box k times covers it k times, a quarter for each of its vertices. */
  lemma RatioAttainsBound(box: Box, name: string, k: nat)
    requires ValidBox(box) && BoxArea(box) > 0.0 && k > 0 && Times(k, BoxArea(box)) >= 0.0001
    ensures ValidPolygon(Rounds(box, k)) && |ClipBox(box, Rounds(box, k))| == 4 * k
    ensures Ratio(box, Zone(name, Rounds(box, k))) == k as real
  {
    RoundsCovered(box, k);
    RoundsInBox(box, k);
    RatioOfAreas(box, Zone(name, Rounds(box, k)));
    Multiple(IntersectionArea(box, Rounds(box, k)), k, BoxArea(box));
  }
}
