/** Label placement: candidate caption rectangles around a detection box,
    the canvas filter with its fallback, and the greedy choice of the
    candidate that overlaps the already placed labels least. */
module Position {
  import opened Geometry

  // ---------------------------------------------------------------------
  // Candidate generation
  // ---------------------------------------------------------------------

  /** The box with each edge pulled onto the canvas where it lies outside. */
  function Clamp(box: Rect, canvasWidth: int, canvasHeight: int): (c: Rect)
    ensures 0 <= c.left && 0 <= c.top && c.right <= canvasWidth && c.bottom <= canvasHeight
    ensures box.left <= c.left && (c.left == 0 || c.left == box.left)
    ensures box.top <= c.top && (c.top == 0 || c.top == box.top)
    ensures c.right <= box.right && (c.right == canvasWidth || c.right == box.right)
    ensures c.bottom <= box.bottom && (c.bottom == canvasHeight || c.bottom == box.bottom)
    ensures Contains(Rect(0, 0, canvasWidth, canvasHeight), box) ==> c == box
  {
    Rect(Max(0, box.left), Max(0, box.top), Min(canvasWidth, box.right), Min(canvasHeight, box.bottom))
  }

  /** The ten caption rectangles for a clamped box, in their fixed order:
      above-left, right, left, below-left, above-right, below-right, and
      inside top-left, top-right, bottom-right, bottom-left. */
  function GeneratedPositions(c: Rect, textWidth: int, textHeight: int, baseline: int): (ps: seq<Rect>)
    ensures |ps| == 10
    ensures forall p :: p in ps ==> Width(p) == textWidth && Height(p) == textHeight + baseline
  {
    var h := textHeight + baseline;
    [ Rect(c.left, c.top - h, c.left + textWidth, c.top),
      Rect(c.right, c.top, c.right + textWidth, c.top + h),
      Rect(c.left - textWidth, c.top, c.left, c.top + h),
      Rect(c.left, c.bottom, c.left + textWidth, c.bottom + h),
      Rect(c.right - textWidth, c.top - h, c.right, c.top),
      Rect(c.right - textWidth, c.bottom, c.right, c.bottom + h),
      Rect(c.left, c.top, c.left + textWidth, c.top + h),
      Rect(c.right - textWidth, c.top, c.right, c.top + h),
      Rect(c.right - textWidth, c.bottom - h, c.right, c.bottom),
      Rect(c.left, c.bottom - h, c.left + textWidth, c.bottom) ]
  }

  /** The rectangle used when no generated one fits: flush with the clamped
      box's top-left corner, wherever that puts it. */
  function Fallback(c: Rect, textWidth: int, textHeight: int, baseline: int): (p: Rect)
    ensures p.left == c.left && p.top == c.top
    ensures Width(p) == textWidth && Height(p) == textHeight + baseline
  {
    Rect(c.left, c.top, c.left + textWidth, c.top + textHeight + baseline)
  }

  /** The canvas test: the overlap ratio against the whole canvas is 1. */
  predicate FitsCanvas(canvasWidth: int, canvasHeight: int, p: Rect)
  {
    ComputeOverlap(Rect(0, 0, canvasWidth, canvasHeight), p) == 1.0
  }

  /** `s` is `t` with some elements left out and the rest in their order. */
  predicate SubsequenceOf(s: seq<Rect>, t: seq<Rect>)
    decreases |t|
  {
    if s == [] then true
    else if t == [] then false
    else
      (s[|s| - 1] == t[|t| - 1] && SubsequenceOf(s[..|s| - 1], t[..|t| - 1]))
      || SubsequenceOf(s, t[..|t| - 1])
  }

  lemma {:induction false} SubsequenceMembers(s: seq<Rect>, t: seq<Rect>)
    requires SubsequenceOf(s, t)
    ensures |s| <= |t|
    ensures forall x :: x in s ==> x in t
    decreases |t|
  {
    if s != [] {
      var s', t' := s[..|s| - 1], t[..|t| - 1];
      assert s == s' + [s[|s| - 1]] && t == t' + [t[|t| - 1]];
      if s[|s| - 1] == t[|t| - 1] && SubsequenceOf(s', t') {
        SubsequenceMembers(s', t');
      } else {
        SubsequenceMembers(s, t');
      }
    }
  }

  /** `kept` is `ps` with exactly the rectangles that fail the canvas test
      removed: in order, only fitting ones, and every fitting one as often
      as it occurs in `ps`. */
  ghost predicate IsCanvasFilter(kept: seq<Rect>, ps: seq<Rect>, canvasWidth: int, canvasHeight: int)
  {
    SubsequenceOf(kept, ps)
    && (forall x :: x in kept ==> FitsCanvas(canvasWidth, canvasHeight, x))
    && (forall x :: FitsCanvas(canvasWidth, canvasHeight, x) ==> multiset(kept)[x] == multiset(ps)[x])
  }

  /** The filtering loop of findCandidatePositions, as a function of the
      prefix it has consumed. */
  function KeepFitting(canvasWidth: int, canvasHeight: int, ps: seq<Rect>): seq<Rect>
    decreases |ps|
  {
    if ps == [] then []
    else
      var last := ps[|ps| - 1];
      KeepFitting(canvasWidth, canvasHeight, ps[..|ps| - 1])
        + (if FitsCanvas(canvasWidth, canvasHeight, last) then [last] else [])
  }

  /** The loop keeps exactly the fitting rectangles, in order. */
  lemma {:induction false} KeepFittingIsCanvasFilter(canvasWidth: int, canvasHeight: int, ps: seq<Rect>)
    ensures IsCanvasFilter(KeepFitting(canvasWidth, canvasHeight, ps), ps, canvasWidth, canvasHeight)
    decreases |ps|
  {
    if ps != [] {
      var init, last := ps[..|ps| - 1], ps[|ps| - 1];
      var k := KeepFitting(canvasWidth, canvasHeight, init);
      KeepFittingIsCanvasFilter(canvasWidth, canvasHeight, init);
      assert ps == init + [last];
      var kept := KeepFitting(canvasWidth, canvasHeight, ps);
      if FitsCanvas(canvasWidth, canvasHeight, last) {
        assert kept == k + [last];
        assert kept[..|kept| - 1] == k;
      } else {
        assert kept == k;
      }
    }
  }

  /** A subsequence takes each element at most as often as it occurs. */
  lemma {:induction false} SubsequenceMultiset(s: seq<Rect>, t: seq<Rect>)
    requires SubsequenceOf(s, t)
    ensures multiset(s) <= multiset(t)
    decreases |t|
  {
    if s != [] {
      var s', t' := s[..|s| - 1], t[..|t| - 1];
      assert s == s' + [s[|s| - 1]] && t == t' + [t[|t| - 1]];
      if s[|s| - 1] == t[|t| - 1] && SubsequenceOf(s', t') {
        SubsequenceMultiset(s', t');
      } else {
        SubsequenceMultiset(s, t');
      }
    }
  }

  /** The description of the filter pins its result down: whatever meets
      it is what the filtering loop produces. */
  lemma {:induction false} CanvasFilterIsUnique(kept: seq<Rect>, ps: seq<Rect>, canvasWidth: int, canvasHeight: int)
    requires IsCanvasFilter(kept, ps, canvasWidth, canvasHeight)
    ensures kept == KeepFitting(canvasWidth, canvasHeight, ps)
    decreases |ps|
  {
    if ps != [] {
      var init, last := ps[..|ps| - 1], ps[|ps| - 1];
      assert ps == init + [last];
      assert multiset(ps) == multiset(init) + multiset{last};
      if FitsCanvas(canvasWidth, canvasHeight, last) {
        assert multiset(kept)[last] == multiset(init)[last] + 1;
        if SubsequenceOf(kept, init) {
          SubsequenceMultiset(kept, init);
        }
        var rest := kept[..|kept| - 1];
        assert kept == rest + [last];
        assert multiset(kept) == multiset(rest) + multiset{last};
        SubsequenceMembers(rest, init);
        forall x | FitsCanvas(canvasWidth, canvasHeight, x)
          ensures multiset(rest)[x] == multiset(init)[x]
        {
        }
        CanvasFilterIsUnique(rest, init, canvasWidth, canvasHeight);
      } else {
        assert last !in kept;
        forall x | FitsCanvas(canvasWidth, canvasHeight, x)
          ensures multiset(kept)[x] == multiset(init)[x]
        {
          assert x != last;
        }
        CanvasFilterIsUnique(kept, init, canvasWidth, canvasHeight);
      }
    }
  }

  /** All that findCandidatePositions returns. */
  function Candidates(box: Rect, canvasWidth: int, canvasHeight: int,
                      textWidth: int, textHeight: int, baseline: int): (cs: seq<Rect>)
    ensures cs != []
  {
    var c := Clamp(box, canvasWidth, canvasHeight);
    var kept := KeepFitting(canvasWidth, canvasHeight, GeneratedPositions(c, textWidth, textHeight, baseline));
    if kept == [] then [Fallback(c, textWidth, textHeight, baseline)] else kept
  }

  /** The candidates are never empty, all have the caption's size, and are
      either the generated rectangles that pass the canvas test, in order,
      or the fallback alone when none passes. */
  lemma CandidatesShape(box: Rect, canvasWidth: int, canvasHeight: int,
                        textWidth: int, textHeight: int, baseline: int)
    ensures var cs := Candidates(box, canvasWidth, canvasHeight, textWidth, textHeight, baseline);
            1 <= |cs| <= 10
            && forall p :: p in cs ==> Width(p) == textWidth && Height(p) == textHeight + baseline
    ensures var cs := Candidates(box, canvasWidth, canvasHeight, textWidth, textHeight, baseline);
            var c := Clamp(box, canvasWidth, canvasHeight);
            var ps := GeneratedPositions(c, textWidth, textHeight, baseline);
            if exists p :: p in ps && FitsCanvas(canvasWidth, canvasHeight, p)
            then IsCanvasFilter(cs, ps, canvasWidth, canvasHeight)
            else cs == [Fallback(c, textWidth, textHeight, baseline)]
  {
    var c := Clamp(box, canvasWidth, canvasHeight);
    var ps := GeneratedPositions(c, textWidth, textHeight, baseline);
    var kept := KeepFitting(canvasWidth, canvasHeight, ps);
    KeepFittingIsCanvasFilter(canvasWidth, canvasHeight, ps);
    SubsequenceMembers(kept, ps);
    KeepFittingEmptyIffNoneFits(canvasWidth, canvasHeight, ps);
  }

  /** For a canvas of positive size and a proper rectangle of at most the
      canvas's area, the canvas test holds exactly when the rectangle lies
      inside [0, canvasWidth] x [0, canvasHeight]. */
  lemma FitsCanvasIffInside(canvasWidth: int, canvasHeight: int, p: Rect)
    requires 0 < canvasWidth && 0 < canvasHeight && Proper(p)
    requires Area(p) <= canvasWidth * canvasHeight
    ensures FitsCanvas(canvasWidth, canvasHeight, p) <==>
      0 <= p.left && p.right <= canvasWidth && 0 <= p.top && p.bottom <= canvasHeight
  {
    var all := Rect(0, 0, canvasWidth, canvasHeight);
    assert Area(all) == canvasWidth * canvasHeight;
    OverlapOneIffInsideLarger(all, p);
  }

  /** A rectangle of zero area never passes the canvas test. */
  lemma ZeroAreaNeverFits(canvasWidth: int, canvasHeight: int, p: Rect)
    requires Area(p) == 0
    ensures !FitsCanvas(canvasWidth, canvasHeight, p)
  {
    ZeroAreaMeetsNothing(Rect(0, 0, canvasWidth, canvasHeight), p);
  }

  /** The canvas test also admits a proper rectangle that covers the whole
      canvas: the ratio divides by the smaller of the two areas. */
  lemma CoveringRectFits(canvasWidth: int, canvasHeight: int, p: Rect)
    requires 0 < canvasWidth && 0 < canvasHeight
    requires p.left <= 0 && canvasWidth <= p.right && p.top <= 0 && canvasHeight <= p.bottom
    ensures FitsCanvas(canvasWidth, canvasHeight, p)
  {
    OverlapOneIffNested(Rect(0, 0, canvasWidth, canvasHeight), p);
  }

  /** Nothing is kept exactly when nothing fits. */
  lemma KeepFittingEmptyIffNoneFits(canvasWidth: int, canvasHeight: int, ps: seq<Rect>)
    ensures KeepFitting(canvasWidth, canvasHeight, ps) == [] <==>
      forall p :: p in ps ==> !FitsCanvas(canvasWidth, canvasHeight, p)
  {
    var kept := KeepFitting(canvasWidth, canvasHeight, ps);
    KeepFittingIsCanvasFilter(canvasWidth, canvasHeight, ps);
    SubsequenceMembers(kept, ps);
    assert forall p :: p in ps ==> multiset(ps)[p] > 0;
    if kept != [] {
      assert kept[0] in ps;
    }
  }

  /** The first kept rectangle is the first one in `ps` that fits. */
  lemma {:induction false} KeepFittingHead(canvasWidth: int, canvasHeight: int, ps: seq<Rect>, z: int)
    requires 0 <= z < |ps| && FitsCanvas(canvasWidth, canvasHeight, ps[z])
    requires forall j :: 0 <= j < z ==> !FitsCanvas(canvasWidth, canvasHeight, ps[j])
    ensures |KeepFitting(canvasWidth, canvasHeight, ps)| > 0
    ensures KeepFitting(canvasWidth, canvasHeight, ps)[0] == ps[z]
    decreases |ps|
  {
    var init := ps[..|ps| - 1];
    if z < |ps| - 1 {
      KeepFittingHead(canvasWidth, canvasHeight, init, z);
    } else {
      KeepFittingEmptyIffNoneFits(canvasWidth, canvasHeight, init);
    }
  }

  // ---------------------------------------------------------------------
  // Selection
  // ---------------------------------------------------------------------

  function RealMax(x: real, y: real): real { if x < y then y else x }

  /** The score of a candidate: its largest IoU against the placed labels,
      0 when none is placed. */
  function MaxIoU(c: Rect, marked: seq<Rect>): (s: real)
    ensures 0.0 <= s <= 1.0
    decreases |marked|
  {
    if marked == [] then 0.0
    else RealMax(ComputeIoU(c, marked[|marked| - 1]), MaxIoU(c, marked[..|marked| - 1]))
  }

  /** The score is the largest IoU against any placed label. */
  lemma {:induction false} MaxIoUIsMaximum(c: Rect, marked: seq<Rect>)
    ensures forall m :: m in marked ==> ComputeIoU(c, m) <= MaxIoU(c, marked)
    ensures marked != [] ==> exists m :: m in marked && ComputeIoU(c, m) == MaxIoU(c, marked)
    decreases |marked|
  {
    if marked != [] {
      var init, last := marked[..|marked| - 1], marked[|marked| - 1];
      assert marked == init + [last];
      MaxIoUIsMaximum(c, init);
      assert MaxIoU(c, marked) == RealMax(ComputeIoU(c, last), MaxIoU(c, init));
      if MaxIoU(c, marked) != ComputeIoU(c, last) {
        assert init != [];
      }
    }
  }

  /** A candidate scores 0 exactly when it shares no area with any placed label. */
  lemma ScoreZeroIffDisjoint(c: Rect, marked: seq<Rect>)
    ensures MaxIoU(c, marked) == 0.0 <==> forall m :: m in marked ==> IntersectionArea(c, m) == 0
  {
    MaxIoUIsMaximum(c, marked);
    if MaxIoU(c, marked) != 0.0 {
      var m :| m in marked && ComputeIoU(c, m) == MaxIoU(c, marked);
      assert IntersectionArea(c, m) != 0;
    }
  }

  /** The score of every candidate, in candidate order. */
  function Scores(cs: seq<Rect>, marked: seq<Rect>): seq<real>
  {
    seq(|cs|, j requires 0 <= j < |cs| => MaxIoU(cs[j], marked))
  }

  /** Index `k` holds the smallest score, and no earlier index does. */
  predicate EarliestMinimal(scores: seq<real>, k: int)
  {
    0 <= k < |scores|
    && (forall j :: 0 <= j < |scores| ==> scores[k] <= scores[j])
    && (forall j :: 0 <= j < k ==> scores[k] < scores[j])
  }

  /** At most one index is the earliest minimum. */
  lemma EarliestMinimalUnique(scores: seq<real>, k1: int, k2: int)
    requires EarliestMinimal(scores, k1) && EarliestMinimal(scores, k2)
    ensures k1 == k2
  {
    assert scores[k1] <= scores[k2] && scores[k2] <= scores[k1];
  }

  /** Reference choice: the earliest index of least score. */
  function OptimalIndex(scores: seq<real>): (k: nat)
    requires |scores| > 0
    ensures EarliestMinimal(scores, k)
    decreases |scores|
  {
    if |scores| == 1 then 0
    else
      var init := scores[..|scores| - 1];
      var k := OptimalIndex(init);
      assert forall j :: 0 <= j < |init| ==> init[j] == scores[j];
      if scores[|scores| - 1] < scores[k] then |scores| - 1 else k
  }

  /** When some candidate overlaps no placed label, the first such one is chosen. */
  lemma FirstZeroScoreWins(cs: seq<Rect>, marked: seq<Rect>, z: int)
    requires 0 <= z < |cs| && MaxIoU(cs[z], marked) == 0.0
    requires forall j :: 0 <= j < z ==> MaxIoU(cs[j], marked) != 0.0
    ensures OptimalIndex(Scores(cs, marked)) == z
  {
    var scores := Scores(cs, marked);
    assert EarliestMinimal(scores, z);
    EarliestMinimalUnique(scores, z, OptimalIndex(scores));
  }

  /** With no label placed yet, the first candidate is chosen. */
  lemma EmptyHistoryPicksFirst(cs: seq<Rect>)
    requires |cs| > 0
    ensures OptimalIndex(Scores(cs, [])) == 0
  {
    FirstZeroScoreWins(cs, [], 0);
  }

  /** The rectangle selectOptimalPosition commits for these inputs and history. */
  function Chosen(marked: seq<Rect>, box: Rect, canvasWidth: int, canvasHeight: int,
                  textWidth: int, textHeight: int, baseline: int): (p: Rect)
    ensures p in Candidates(box, canvasWidth, canvasHeight, textWidth, textHeight, baseline)
  {
    var cs := Candidates(box, canvasWidth, canvasHeight, textWidth, textHeight, baseline);
    cs[OptimalIndex(Scores(cs, marked))]
  }

  /** On a fresh manager the label goes to the first generated rectangle that
      fits the canvas, or to the fallback when none does. */
  lemma FreshChoiceIsFirstFitting(box: Rect, canvasWidth: int, canvasHeight: int,
                                  textWidth: int, textHeight: int, baseline: int)
    ensures var c := Clamp(box, canvasWidth, canvasHeight);
            var ps := GeneratedPositions(c, textWidth, textHeight, baseline);
            var p := Chosen([], box, canvasWidth, canvasHeight, textWidth, textHeight, baseline);
            if exists q :: q in ps && FitsCanvas(canvasWidth, canvasHeight, q)
            then exists z :: 0 <= z < |ps| && p == ps[z] && FitsCanvas(canvasWidth, canvasHeight, p)
                   && forall j :: 0 <= j < z ==> !FitsCanvas(canvasWidth, canvasHeight, ps[j])
            else p == Fallback(c, textWidth, textHeight, baseline)
  {
    var c := Clamp(box, canvasWidth, canvasHeight);
    var ps := GeneratedPositions(c, textWidth, textHeight, baseline);
    var cs := Candidates(box, canvasWidth, canvasHeight, textWidth, textHeight, baseline);
    EmptyHistoryPicksFirst(cs);
    KeepFittingEmptyIffNoneFits(canvasWidth, canvasHeight, ps);
    if exists q :: q in ps && FitsCanvas(canvasWidth, canvasHeight, q) {
      var z := FirstFitting(canvasWidth, canvasHeight, ps);
      KeepFittingHead(canvasWidth, canvasHeight, ps, z);
      assert cs == KeepFitting(canvasWidth, canvasHeight, ps);
    }
  }

  /** A worked case: on an 800 x 600 canvas, box (100, 100, 200, 150) and an
      80 x (20 + 5) caption, a fresh manager puts the label just above the
      box's top-left corner. */
  lemma FreshChoiceExample()
    ensures Chosen([], Rect(100, 100, 200, 150), 800, 600, 80, 20, 5) == Rect(100, 75, 180, 100)
  {
    var box := Rect(100, 100, 200, 150);
    var ps := GeneratedPositions(Clamp(box, 800, 600), 80, 20, 5);
    assert ps[0] == Rect(100, 75, 180, 100);
    FitsCanvasIffInside(800, 600, ps[0]);
    KeepFittingHead(800, 600, ps, 0);
    EmptyHistoryPicksFirst(Candidates(box, 800, 600, 80, 20, 5));
  }

  /** The index of the first fitting rectangle, when there is one. */
  lemma FirstFitting(canvasWidth: int, canvasHeight: int, ps: seq<Rect>) returns (z: int)
    requires exists q :: q in ps && FitsCanvas(canvasWidth, canvasHeight, q)
    ensures 0 <= z < |ps| && FitsCanvas(canvasWidth, canvasHeight, ps[z])
    ensures forall j :: 0 <= j < z ==> !FitsCanvas(canvasWidth, canvasHeight, ps[j])
  {
    z := 0;
    while !FitsCanvas(canvasWidth, canvasHeight, ps[z])
      invariant 0 <= z < |ps|
      invariant forall j :: 0 <= j < z ==> !FitsCanvas(canvasWidth, canvasHeight, ps[j])
      invariant exists i :: z <= i < |ps| && FitsCanvas(canvasWidth, canvasHeight, ps[i])
      decreases |ps| - z
    {
      z := z + 1;
    }
  }

  // ---------------------------------------------------------------------
  // The manager
  // ---------------------------------------------------------------------

  /** PositionManager: remembers the labels placed on the current frame. */
  class PositionManager {
    var markedPositions: seq<Rect>

    constructor ()
      ensures markedPositions == []
    {
      markedPositions := [];
    }

    /** findCandidatePositions. */
    static method FindCandidatePositions(box: Rect, canvasWidth: int, canvasHeight: int,
                                         textWidth: int, textHeight: int, baseline: int)
      returns (candidatePositions: seq<Rect>)
      ensures candidatePositions == Candidates(box, canvasWidth, canvasHeight, textWidth, textHeight, baseline)
    {
      var left := Max(0, box.left);
      var top := Max(0, box.top);
      var right := Min(canvasWidth, box.right);
      var bottom := Min(canvasHeight, box.bottom);
      var all := Rect(0, 0, canvasWidth, canvasHeight);
      assert Rect(left, top, right, bottom) == Clamp(box, canvasWidth, canvasHeight);
      var positions := GeneratedPositions(Rect(left, top, right, bottom), textWidth, textHeight, baseline);
      candidatePositions := [];
      for i := 0 to |positions|
        invariant candidatePositions == KeepFitting(canvasWidth, canvasHeight, positions[..i])
      {
        assert positions[..i + 1][..i] == positions[..i];
        if ComputeOverlap(all, positions[i]) == 1.0 {
          candidatePositions := candidatePositions + [positions[i]];
        }
      }
      assert positions[..|positions|] == positions;
      if |candidatePositions| == 0 {
        candidatePositions := [Rect(left, top, left + textWidth, top + textHeight + baseline)];
      }
    }

    /** The inner loop of selectOptimalPosition: the largest IoU of one
        candidate against the placed labels. */
    static method CandidateScore(cposition: Rect, marked: seq<Rect>) returns (maxIoU: real)
      ensures maxIoU == MaxIoU(cposition, marked)
    {
      maxIoU := 0.0;
      for n := 0 to |marked|
        invariant maxIoU == MaxIoU(cposition, marked[..n])
      {
        assert marked[..n + 1][..n] == marked[..n];
        var iou := ComputeIoU(cposition, marked[n]);
        maxIoU := RealMax(iou, maxIoU);
      }
      assert marked[..|marked|] == marked;
    }

    /** The scan of selectOptimalPosition: the first candidate that overlaps
        no placed label, else the earliest one whose score is strictly
        smallest, starting from candidate 0 with score bound 1. */
    static method ScanCandidates(candidatePositions: seq<Rect>, marked: seq<Rect>)
      returns (candidatePosition: Rect)
      requires |candidatePositions| > 0
      ensures candidatePosition == candidatePositions[OptimalIndex(Scores(candidatePositions, marked))]
    {
      ghost var scores := Scores(candidatePositions, marked);
      var minIoU: real := 1.0;
      candidatePosition := candidatePositions[0];
      ghost var k := 0;
      var i := 0;
      while i < |candidatePositions|
        invariant 0 <= i <= |candidatePositions|
        invariant 0 <= k < |candidatePositions| && candidatePosition == candidatePositions[k]
        invariant k == 0 || k < i
        invariant minIoU == scores[k] || (k == 0 && minIoU == 1.0)
        invariant forall j :: 0 <= j < i ==> 0.0 < scores[j] && minIoU <= scores[j]
        invariant forall j :: 0 <= j < k ==> minIoU < scores[j]
      {
        var cposition := candidatePositions[i];
        var maxIoU := CandidateScore(cposition, marked);
        assert maxIoU == scores[i];
        if maxIoU == 0.0 {
          candidatePosition := cposition;
          k := i;
          break;
        } else if maxIoU < minIoU {
          minIoU := maxIoU;
          candidatePosition := cposition;
          k := i;
        }
        i := i + 1;
      }
      assert EarliestMinimal(scores, k);
      EarliestMinimalUnique(scores, k, OptimalIndex(scores));
    }

    /** selectOptimalPosition: commits the earliest candidate of least score
        and returns where the caption text is drawn. */
    method SelectOptimalPosition(box: Rect, canvasWidth: int, canvasHeight: int,
                                 textWidth: int, textHeight: int, baseline: int)
      returns (x: int, y: int)
      modifies this
      ensures var p := Chosen(old(markedPositions), box, canvasWidth, canvasHeight, textWidth, textHeight, baseline);
              markedPositions == old(markedPositions) + [p] && x == p.left && y == p.top + textHeight
    {
      var candidatePositions := FindCandidatePositions(box, canvasWidth, canvasHeight, textWidth, textHeight, baseline);
      var candidatePosition := ScanCandidates(candidatePositions, markedPositions);
      markedPositions := markedPositions + [candidatePosition];
      x, y := candidatePosition.left, candidatePosition.top + textHeight;
    }

    /** clearMarkedPositions: forgets every placed label. */
    method ClearMarkedPositions()
      modifies this
      ensures markedPositions == []
    {
      markedPositions := [];
    }
  }

  /** After clearing, a manager places a label exactly as a fresh one does. */
  method ClearedMatchesFresh(m: PositionManager, box: Rect, canvasWidth: int, canvasHeight: int,
                             textWidth: int, textHeight: int, baseline: int)
    returns (x: int, y: int, freshX: int, freshY: int)
    modifies m
    ensures x == freshX && y == freshY
    ensures m.markedPositions == [Chosen([], box, canvasWidth, canvasHeight, textWidth, textHeight, baseline)]
  {
    m.ClearMarkedPositions();
    x, y := m.SelectOptimalPosition(box, canvasWidth, canvasHeight, textWidth, textHeight, baseline);
    var other := new PositionManager();
    freshX, freshY := other.SelectOptimalPosition(box, canvasWidth, canvasHeight, textWidth, textHeight, baseline);
  }
}
