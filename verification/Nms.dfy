/** Decoding of detector rows and class-aware non-maximum suppression. */
module Nms {

  /** A box by its corners. */
  datatype Corners = Corners(x1: real, y1: real, x2: real, y2: real)

  datatype Detection = Detection(className: string, classId: int, confidence: real, box: Corners)

  function Min(a: real, b: real): real {
    if b < a then b else a
  }

  function Max(a: real, b: real): real {
    if b > a then b else a
  }

  // ---------------------------------------------------------------- decoding

  /** One row of the model's output with its best class and score. */
  datatype Row = Row(centerX: real, centerY: real, width: real, height: real, classId: int, score: real)

  datatype Scale = Scale(pixels: bool, width: real, height: real)

  function Clipped(row: Row, s: Scale): Corners
    requires s.pixels ==> s.width > 0.0 && s.height > 0.0
  {
    var cx := if s.pixels then row.centerX / s.width else row.centerX;
    var w := if s.pixels then row.width / s.width else row.width;
    var cy := if s.pixels then row.centerY / s.height else row.centerY;
    var h := if s.pixels then row.height / s.height else row.height;
    Corners(Max(0.0, cx - w / 2.0), Max(0.0, cy - h / 2.0), Min(1.0, cx + w / 2.0), Min(1.0, cy + h / 2.0))
  }

  predicate Proper(b: Corners) {
    0.0 <= b.x1 < b.x2 <= 1.0 && 0.0 <= b.y1 < b.y2 <= 1.0
  }

  /** A row counts when its score is high enough, its class is fire or smoke, and its clipped box is
      not empty. */
  predicate Counts(row: Row, labels: map<int, string>, threshold: real, s: Scale)
    requires s.pixels ==> s.width > 0.0 && s.height > 0.0
  {
    && row.score >= threshold
    && row.classId in labels && (labels[row.classId] == "fire" || labels[row.classId] == "smoke")
    && Clipped(row, s).x1 < Clipped(row, s).x2 && Clipped(row, s).y1 < Clipped(row, s).y2
  }

  function Decoded(rows: seq<Row>, labels: map<int, string>, threshold: real, s: Scale): (d: seq<Detection>)
    requires s.pixels ==> s.width > 0.0 && s.height > 0.0
    ensures forall i :: 0 <= i < |d| ==> Proper(d[i].box) && d[i].confidence >= threshold
  {
    if rows == [] then []
    else
      var row := rows[|rows| - 1];
      var earlier := Decoded(rows[..|rows| - 1], labels, threshold, s);
      if Counts(row, labels, threshold, s)
      then earlier + [Detection(labels[row.classId], row.classId, row.score, Clipped(row, s))]
      else earlier
  }

  method Decode(rows: seq<Row>, labels: map<int, string>, threshold: real, s: Scale)
    returns (candidates: seq<Detection>)
    requires s.pixels ==> s.width > 0.0 && s.height > 0.0
    ensures candidates == Decoded(rows, labels, threshold, s)
    ensures forall i :: 0 <= i < |candidates| ==> Proper(candidates[i].box)
  {
    candidates := [];
    var i := 0;
    while i < |rows|
      invariant i <= |rows| && candidates == Decoded(rows[..i], labels, threshold, s)
    {
      var row := rows[i];
      assert rows[..i + 1][..i] == rows[..i];
      i := i + 1;
      if row.score < threshold || row.classId !in labels ||
         (labels[row.classId] != "fire" && labels[row.classId] != "smoke") {
        continue;
      }
      var box := Clipped(row, s);
      if box.x1 >= box.x2 || box.y1 >= box.y2 {
        continue;
      }
      candidates := candidates + [Detection(labels[row.classId], row.classId, row.score, box)];
    }
    assert rows[..i] == rows;
  }

  // ---------------------------------------------------------------- overlap

  function Area(b: Corners): real {
    (b.x2 - b.x1) * (b.y2 - b.y1)
  }

  /** How far two intervals overlap. */
  function Reach(a1: real, a2: real, b1: real, b2: real): real {
    Max(0.0, Min(a2, b2) - Max(a1, b1))
  }

  function Overlap(a: Corners, b: Corners): real {
    Reach(a.x1, a.x2, b.x1, b.x2) * Reach(a.y1, a.y2, b.y1, b.y2)
  }

  function Ratio(overlap: real, union: real): real {
    if union > 0.0 then overlap / union else 0.0
  }

  function Iou(a: Corners, b: Corners): real {
    Ratio(Overlap(a, b), Area(a) + Area(b) - Overlap(a, b))
  }

  lemma ProductMonotone(a: real, b: real, c: real, d: real)
    requires 0.0 <= a <= c && 0.0 <= b <= d
    ensures 0.0 <= a * b <= c * d
  {
    assert a * b <= c * b by {
      assert (c - a) * b >= 0.0;
    }
    assert c * b <= c * d by {
      assert c * (d - b) >= 0.0;
    }
  }

  lemma ReachWithin(a1: real, a2: real, b1: real, b2: real)
    requires a1 < a2
    ensures 0.0 <= Reach(a1, a2, b1, b2) <= a2 - a1
  {
  }

  lemma OverlapWithin(a: Corners, b: Corners)
    requires Proper(a)
    ensures 0.0 <= Overlap(a, b) <= Area(a)
  {
    ReachWithin(a.x1, a.x2, b.x1, b.x2);
    ReachWithin(a.y1, a.y2, b.y1, b.y2);
    ProductMonotone(Reach(a.x1, a.x2, b.x1, b.x2), Reach(a.y1, a.y2, b.y1, b.y2), a.x2 - a.x1, a.y2 - a.y1);
  }

  lemma OverlapSymmetric(a: Corners, b: Corners)
    ensures Overlap(a, b) == Overlap(b, a)
  {
  }

  lemma ProperHasArea(a: Corners)
    requires Proper(a)
    ensures Area(a) > 0.0 && Overlap(a, a) == Area(a)
  {
  }

  lemma RatioInRange(overlap: real, union: real)
    requires 0.0 <= overlap <= union
    ensures 0.0 <= Ratio(overlap, union) <= 1.0
    ensures union > 0.0 && overlap == union ==> Ratio(overlap, union) == 1.0
    ensures overlap > 0.0 ==> Ratio(overlap, union) > 0.0
  {
    if union > 0.0 {
      var r := overlap / union;
      assert r * union == overlap;
      assert (1.0 - r) * union == union - overlap;
      SignOfFactor(r, union);
      SignOfFactor(1.0 - r, union);
      if overlap == union {
        FactorOne(r, union);
      }
    }
  }

  lemma SignOfFactor(r: real, u: real)
    requires u > 0.0
    ensures (r < 0.0 ==> r * u < 0.0) && (r > 0.0 ==> r * u > 0.0)
  {
  }

  lemma FactorOne(r: real, u: real)
    requires u > 0.0 && r * u == u
    ensures r == 1.0
  {
    assert (1.0 - r) * u == u - r * u;
    SignOfFactor(1.0 - r, u);
  }

  /** On decoded boxes the overlap measure is symmetric, lies between 0 and 1, is positive exactly
      when the boxes overlap, and is 1 for a box with itself. */
  lemma IouIsMeasure(a: Corners, b: Corners)
    requires Proper(a) && Proper(b)
    ensures Iou(a, b) == Iou(b, a) && 0.0 <= Iou(a, b) <= 1.0
    ensures Iou(a, b) > 0.0 <==> Overlap(a, b) > 0.0
    ensures Iou(a, a) == 1.0
  {
    OverlapWithin(a, b);
    OverlapWithin(b, a);
    OverlapSymmetric(a, b);
    RatioInRange(Overlap(a, b), Area(a) + Area(b) - Overlap(a, b));
    ProperHasArea(a);
    RatioInRange(Overlap(a, a), Area(a) + Area(a) - Overlap(a, a));
  }

  // ---------------------------------------------------------------- sorting

  /** Put `x` behind everything of at least its confidence. */
  function Insert(s: seq<Detection>, x: Detection): seq<Detection> {
    if s != [] && s[|s| - 1].confidence < x.confidence then Insert(s[..|s| - 1], x) + [s[|s| - 1]] else s + [x]
  }

  /** The stable sort by falling confidence. */
  function Sort(s: seq<Detection>): seq<Detection> {
    if s == [] then [] else Insert(Sort(s[..|s| - 1]), s[|s| - 1])
  }

  ghost predicate Falling(s: seq<Detection>) {
    forall i, j :: 0 <= i < j < |s| ==> s[i].confidence >= s[j].confidence
  }

  function Filter(p: Detection -> bool, s: seq<Detection>): seq<Detection> {
    if s == [] then []
    else if p(s[|s| - 1]) then Filter(p, s[..|s| - 1]) + [s[|s| - 1]]
    else Filter(p, s[..|s| - 1])
  }

  lemma FilterSnoc(p: Detection -> bool, s: seq<Detection>, x: Detection)
    ensures Filter(p, s + [x]) == if p(x) then Filter(p, s) + [x] else Filter(p, s)
  {
    assert (s + [x])[..|s|] == s;
  }

  lemma {:induction false} InsertPermutes(s: seq<Detection>, x: Detection)
    ensures multiset(Insert(s, x)) == multiset(s) + multiset{x}
  {
    if s != [] && s[|s| - 1].confidence < x.confidence {
      InsertPermutes(s[..|s| - 1], x);
      assert s == s[..|s| - 1] + [s[|s| - 1]];
    }
  }

  ghost predicate AllAtLeast(s: seq<Detection>, least: real) {
    forall i :: 0 <= i < |s| ==> s[i].confidence >= least
  }

  lemma {:induction false} InsertFalls(s: seq<Detection>, x: Detection, least: real)
    requires Falling(s)
    ensures Falling(Insert(s, x))
    ensures AllAtLeast(s, least) && x.confidence >= least ==> AllAtLeast(Insert(s, x), least)
  {
    if s != [] && s[|s| - 1].confidence < x.confidence {
      var front, last := s[..|s| - 1], s[|s| - 1];
      InsertFalls(front, x, last.confidence);
      InsertFalls(front, x, least);
    }
  }

  lemma LastElement(s: seq<Detection>)
    requires s != []
    ensures multiset(s) == multiset(s[..|s| - 1]) + multiset{s[|s| - 1]}
  {
    assert s == s[..|s| - 1] + [s[|s| - 1]];
  }

  lemma {:induction false} SortPermutes(s: seq<Detection>)
    ensures multiset(Sort(s)) == multiset(s)
  {
    if s != [] {
      SortPermutes(s[..|s| - 1]);
      InsertPermutes(Sort(s[..|s| - 1]), s[|s| - 1]);
      LastElement(s);
    }
  }

  lemma {:induction false} SortFalls(s: seq<Detection>)
    ensures Falling(Sort(s))
  {
    if s != [] {
      var sorted, x := Sort(s[..|s| - 1]), s[|s| - 1];
      SortFalls(s[..|s| - 1]);
      InsertFalls(sorted, x, x.confidence);
    }
  }

  lemma SortSnoc(s: seq<Detection>, x: Detection)
    ensures Sort(s + [x]) == Insert(Sort(s), x)
  {
    assert (s + [x])[..|s|] == s;
  }

  lemma SortedSnoc(s: seq<Detection>, x: Detection)
    requires Sort(s) == s && (s != [] ==> s[|s| - 1].confidence >= x.confidence)
    ensures Sort(s + [x]) == s + [x]
  {
    SortSnoc(s, x);
  }

  lemma {:induction false} SortOfFalling(s: seq<Detection>)
    requires Falling(s)
    ensures Sort(s) == s
  {
    if s != [] {
      var front, x := s[..|s| - 1], s[|s| - 1];
      assert Falling(front) && (front != [] ==> s[|s| - 2].confidence >= x.confidence);
      SortOfFalling(front);
      SortedSnoc(front, x);
      assert s == front + [x];
    }
  }

  lemma {:induction false} FilterKeeps(p: Detection -> bool, s: seq<Detection>, least: real)
    requires Falling(s) && forall i :: 0 <= i < |s| ==> s[i].confidence >= least
    ensures Falling(Filter(p, s))
    ensures forall i :: 0 <= i < |Filter(p, s)| ==> Filter(p, s)[i].confidence >= least && p(Filter(p, s)[i])
  {
    if s != [] {
      FilterKeeps(p, s[..|s| - 1], s[|s| - 1].confidence);
    }
  }

  lemma InsertSnoc(s: seq<Detection>, last: Detection, x: Detection)
    ensures Insert(s + [last], x) == if last.confidence < x.confidence then Insert(s, x) + [last] else s + [last] + [x]
  {
    assert (s + [last])[..|s|] == s;
  }

  /** The claim about selecting after an insertion. */
  ghost predicate InsertCommutes(p: Detection -> bool, s: seq<Detection>, x: Detection) {
    Filter(p, Insert(s, x)) == if p(x) then Insert(Filter(p, s), x) else Filter(p, s)
  }

  lemma CommutesBehindSmaller(p: Detection -> bool, front: seq<Detection>, last: Detection, x: Detection)
    requires InsertCommutes(p, front, x) && last.confidence < x.confidence
    ensures InsertCommutes(p, front + [last], x)
  {
    InsertSnoc(front, last, x);
    FilterSnoc(p, Insert(front, x), last);
    FilterSnoc(p, front, last);
    InsertSnoc(Filter(p, front), last, x);
  }

  lemma CommutesAtEnd(p: Detection -> bool, s: seq<Detection>, x: Detection)
    requires Falling(s) && (s == [] || s[|s| - 1].confidence >= x.confidence)
    ensures InsertCommutes(p, s, x)
  {
    FilterKeeps(p, s, x.confidence);
    FilterSnoc(p, s, x);
  }

  lemma {:induction false} FilterOfInsert(p: Detection -> bool, s: seq<Detection>, x: Detection)
    requires Falling(s)
    ensures InsertCommutes(p, s, x)
  {
    if s != [] && s[|s| - 1].confidence < x.confidence {
      var front, last := s[..|s| - 1], s[|s| - 1];
      FilterOfInsert(p, front, x);
      CommutesBehindSmaller(p, front, last, x);
      assert s == front + [last];
    } else {
      CommutesAtEnd(p, s, x);
    }
  }

  /** Sorting and selecting commute. */
  lemma {:induction false} FilterOfSort(p: Detection -> bool, s: seq<Detection>)
    ensures Filter(p, Sort(s)) == Sort(Filter(p, s))
  {
    if s != [] {
      var front, x := s[..|s| - 1], s[|s| - 1];
      FilterOfSort(p, front);
      SortFalls(front);
      var sorted := Sort(front);
      FilterOfInsert(p, sorted, x);
      SortSnoc(Filter(p, front), x);
    }
  }

  function HasConfidence(c: real): Detection -> bool {
    (d: Detection) => d.confidence == c
  }

  /** Detections of equal confidence stay in their order. */
  lemma SortIsStable(s: seq<Detection>, c: real)
    ensures Filter(HasConfidence(c), Sort(s)) == Filter(HasConfidence(c), s)
  {
    var p := HasConfidence(c);
    FilterOfSort(p, s);
    FilterTest(p, s);
    SortOfFalling(Filter(p, s));
  }

  lemma {:induction false} FilterTest(p: Detection -> bool, s: seq<Detection>)
    ensures forall i :: 0 <= i < |Filter(p, s)| ==> p(Filter(p, s)[i])
  {
    if s != [] {
      FilterTest(p, s[..|s| - 1]);
    }
  }

  // ---------------------------------------------------------------- the greedy selection

  /** Whether a candidate is suppressed by a kept box. */
  function Clash(threshold: real): (Detection, Detection) -> bool {
    (candidate: Detection, kept: Detection) =>
      candidate.classId == kept.classId && Iou(candidate.box, kept.box) > threshold
  }

  predicate Free(clash: (Detection, Detection) -> bool, candidate: Detection, kept: seq<Detection>) {
    forall i :: 0 <= i < |kept| ==> !clash(candidate, kept[i])
  }

  function Greedy(clash: (Detection, Detection) -> bool, s: seq<Detection>): seq<Detection> {
    if s == [] then []
    else
      var kept, x := Greedy(clash, s[..|s| - 1]), s[|s| - 1];
      if Free(clash, x, kept) then kept + [x] else kept
  }

  /** `_class_aware_nms`. */
  function Suppressed(threshold: real, candidates: seq<Detection>): seq<Detection> {
    Greedy(Clash(threshold), Sort(candidates))
  }

  method IsFree(candidate: Detection, selected: seq<Detection>, threshold: real) returns (free: bool)
    ensures free == Free(Clash(threshold), candidate, selected)
  {
    var i := 0;
    while i < |selected|
      invariant i <= |selected| && forall j :: 0 <= j < i ==> !Clash(threshold)(candidate, selected[j])
    {
      var kept := selected[i];
      if !(candidate.classId != kept.classId || Iou(candidate.box, kept.box) <= threshold) {
        assert Clash(threshold)(candidate, selected[i]);
        return false;
      }
      i := i + 1;
    }
    free := true;
  }

  method ClassAwareNms(candidates: seq<Detection>, threshold: real) returns (selected: seq<Detection>)
    ensures selected == Suppressed(threshold, candidates)
  {
    selected := [];
    var sorted := Sort(candidates);
    var i := 0;
    while i < |sorted|
      invariant i <= |sorted| && selected == Greedy(Clash(threshold), sorted[..i])
    {
      assert sorted[..i + 1][..i] == sorted[..i];
      var free := IsFree(sorted[i], selected, threshold);
      if free {
        selected := selected + [sorted[i]];
      }
      i := i + 1;
    }
    assert sorted[..i] == sorted;
  }

  // ---------------------------------------------------------------- the unique solution

  /** The sublist marked by a mask. */
  function Pick(s: seq<Detection>, mask: seq<bool>): seq<Detection>
    requires |mask| == |s|
  {
    if s == [] then []
    else
      var n := |s| - 1;
      if mask[n] then Pick(s[..n], mask[..n]) + [s[n]] else Pick(s[..n], mask[..n])
  }

  /** Marked boxes clash with no earlier marked box, and unmarked ones with some. */
  ghost predicate Solves(clash: (Detection, Detection) -> bool, s: seq<Detection>, mask: seq<bool>) {
    && |mask| == |s|
    && forall i :: 0 <= i < |s| ==> (mask[i] <==> forall j :: 0 <= j < i && mask[j] ==> !clash(s[i], s[j]))
  }

  lemma {:induction false} FreeOfPicked(clash: (Detection, Detection) -> bool, x: Detection,
                                        s: seq<Detection>, mask: seq<bool>)
    requires |mask| == |s|
    ensures Free(clash, x, Pick(s, mask)) <==> forall j :: 0 <= j < |s| && mask[j] ==> !clash(x, s[j])
  {
    if s != [] {
      var n := |s| - 1;
      FreeOfPicked(clash, x, s[..n], mask[..n]);
      var inner := Pick(s[..n], mask[..n]);
      assert Free(clash, x, Pick(s, mask)) <==> Free(clash, x, inner) && (mask[n] ==> !clash(x, s[n])) by {
        if mask[n] {
          assert Pick(s, mask)[|inner|] == s[n];
          assert forall i :: 0 <= i < |inner| ==> Pick(s, mask)[i] == inner[i];
        }
      }
      assert forall j :: 0 <= j < n ==> s[..n][j] == s[j] && mask[..n][j] == mask[j];
    }
  }

  lemma SolvesFront(clash: (Detection, Detection) -> bool, s: seq<Detection>, mask: seq<bool>)
    requires s != [] && Solves(clash, s, mask)
    ensures Solves(clash, s[..|s| - 1], mask[..|s| - 1])
    ensures mask[|s| - 1] <==> Free(clash, s[|s| - 1], Pick(s[..|s| - 1], mask[..|s| - 1]))
  {
    var n := |s| - 1;
    FreeOfPicked(clash, s[n], s[..n], mask[..n]);
    assert forall j :: 0 <= j < n ==> s[..n][j] == s[j] && mask[..n][j] == mask[j];
  }

  /** Every solution marks exactly the greedy selection. */
  lemma {:induction false} SolutionIsGreedy(clash: (Detection, Detection) -> bool, s: seq<Detection>, mask: seq<bool>)
    requires Solves(clash, s, mask)
    ensures Pick(s, mask) == Greedy(clash, s)
  {
    if s != [] {
      SolvesFront(clash, s, mask);
      SolutionIsGreedy(clash, s[..|s| - 1], mask[..|s| - 1]);
    }
  }

  lemma {:induction false} SolutionExists(clash: (Detection, Detection) -> bool, s: seq<Detection>)
      returns (mask: seq<bool>)
    ensures Solves(clash, s, mask)
  {
    if s == [] {
      mask := [];
    } else {
      var n := |s| - 1;
      var inner := SolutionExists(clash, s[..n]);
      mask := inner + [Free(clash, s[n], Pick(s[..n], inner))];
      FreeOfPicked(clash, s[n], s[..n], inner);
      forall i | 0 <= i < |s|
        ensures mask[i] <==> forall j :: 0 <= j < i && mask[j] ==> !clash(s[i], s[j])
      {
        if i < n {
          assert s[..n][i] == s[i] && mask[i] == inner[i];
          assert forall j :: 0 <= j < i ==> s[..n][j] == s[j] && mask[j] == inner[j];
        }
      }
    }
  }

  lemma {:induction false} SolutionsAgree(clash: (Detection, Detection) -> bool, s: seq<Detection>,
                                          a: seq<bool>, b: seq<bool>, n: nat)
    requires Solves(clash, s, a) && Solves(clash, s, b) && n <= |s|
    ensures forall i :: 0 <= i < n ==> a[i] == b[i]
  {
    if n > 0 {
      SolutionsAgree(clash, s, a, b, n - 1);
    }
  }

  /** The selection is the one sublist of the sorted candidates in which kept boxes of a class
      overlap at most by the threshold, and every dropped box overlaps an earlier kept one of its
      class by more. */
  lemma NmsIsUniqueSolution(threshold: real, candidates: seq<Detection>) returns (mask: seq<bool>)
    ensures Solves(Clash(threshold), Sort(candidates), mask)
    ensures Suppressed(threshold, candidates) == Pick(Sort(candidates), mask)
    ensures forall other :: Solves(Clash(threshold), Sort(candidates), other) ==> other == mask
  {
    var s := Sort(candidates);
    mask := SolutionExists(Clash(threshold), s);
    SolutionIsGreedy(Clash(threshold), s, mask);
    forall other | Solves(Clash(threshold), s, other) ensures other == mask {
      SolutionsAgree(Clash(threshold), s, other, mask, |s|);
    }
  }

  // ---------------------------------------------------------------- idempotence and classes

  ghost predicate Peaceful(clash: (Detection, Detection) -> bool, s: seq<Detection>) {
    forall i, j :: 0 <= j < i < |s| ==> !clash(s[i], s[j])
  }

  lemma {:induction false} GreedyIsPeaceful(clash: (Detection, Detection) -> bool, s: seq<Detection>, least: real)
    requires Falling(s) && forall i :: 0 <= i < |s| ==> s[i].confidence >= least
    ensures Peaceful(clash, Greedy(clash, s)) && Falling(Greedy(clash, s))
    ensures forall i :: 0 <= i < |Greedy(clash, s)| ==> Greedy(clash, s)[i].confidence >= least
  {
    if s != [] {
      GreedyIsPeaceful(clash, s[..|s| - 1], s[|s| - 1].confidence);
    }
  }

  lemma {:induction false} GreedyOfPeaceful(clash: (Detection, Detection) -> bool, s: seq<Detection>)
    requires Peaceful(clash, s)
    ensures Greedy(clash, s) == s
  {
    if s != [] {
      GreedyOfPeaceful(clash, s[..|s| - 1]);
      assert s == s[..|s| - 1] + [s[|s| - 1]];
    }
  }

  lemma {:induction false} Least(s: seq<Detection>) returns (least: real)
    ensures forall i :: 0 <= i < |s| ==> s[i].confidence >= least
  {
    if s == [] {
      least := 0.0;
    } else {
      least := Least(s[..|s| - 1]);
      least := Min(least, s[|s| - 1].confidence);
    }
  }

  /** Suppressing twice is suppressing once. */
  lemma NmsIsIdempotent(threshold: real, candidates: seq<Detection>)
    ensures Suppressed(threshold, Suppressed(threshold, candidates)) == Suppressed(threshold, candidates)
  {
    var s := Sort(candidates);
    SortFalls(candidates);
    var least := Least(s);
    GreedyIsPeaceful(Clash(threshold), s, least);
    SortOfFalling(Greedy(Clash(threshold), s));
    GreedyOfPeaceful(Clash(threshold), Greedy(Clash(threshold), s));
  }

  function OfClass(classId: int): Detection -> bool {
    (d: Detection) => d.classId == classId
  }

  lemma {:induction false} FreeWithinClass(threshold: real, x: Detection, kept: seq<Detection>)
    ensures Free(Clash(threshold), x, kept) <==> Free(Clash(threshold), x, Filter(OfClass(x.classId), kept))
  {
    if kept != [] {
      var n := |kept| - 1;
      var front, last := kept[..n], kept[n];
      FreeWithinClass(threshold, x, front);
      FreeSnoc(Clash(threshold), x, front, last);
      FreeSnoc(Clash(threshold), x, Filter(OfClass(x.classId), front), last);
      assert kept == front + [last];
    }
  }

  lemma FreeSnoc(clash: (Detection, Detection) -> bool, x: Detection, kept: seq<Detection>, last: Detection)
    ensures Free(clash, x, kept + [last]) <==> Free(clash, x, kept) && !clash(x, last)
  {
    var all := kept + [last];
    assert all[|kept|] == last && forall i :: 0 <= i < |kept| ==> all[i] == kept[i];
  }

  lemma {:induction false} GreedyWithinClass(threshold: real, s: seq<Detection>, classId: int)
    ensures Filter(OfClass(classId), Greedy(Clash(threshold), s)) ==
            Greedy(Clash(threshold), Filter(OfClass(classId), s))
  {
    if s != [] {
      var front, x := s[..|s| - 1], s[|s| - 1];
      GreedyWithinClass(threshold, front, classId);
      var kept := Greedy(Clash(threshold), front);
      FilterSnoc(OfClass(classId), kept, x);
      if x.classId == classId {
        FreeWithinClass(threshold, x, kept);
        var inner := Filter(OfClass(classId), front);
        assert (inner + [x])[..|inner|] == inner;
      }
    }
  }

  /** Restricting to one class commutes with suppression. */
  lemma NmsWithinClass(threshold: real, candidates: seq<Detection>, classId: int)
    ensures Filter(OfClass(classId), Suppressed(threshold, candidates)) ==
            Suppressed(threshold, Filter(OfClass(classId), candidates))
  {
    GreedyWithinClass(threshold, Sort(candidates), classId);
    FilterOfSort(OfClass(classId), candidates);
  }
}
