/** The decision logic of the OMR (optical mark recognition) reader of the
    answer sheets in `cadastro/omr_processor.py`.

    Image processing is not modelled: what the reader learns from the image
    is given as data. A contour is a record of the measurements the reader
    takes of it; the ink inside a circle or a cell is a function of its
    position. Everything that is decided from those numbers is modelled:
    which contours are bubbles, how they are grouped into rows, which letter
    a row yields, the fixed grids, the fallback by regions, and the order in
    which the strategies are tried and adopted. */
module OmrProcessor {
  import opened Base
  import opened Sorting
  import opened Answers

  // ---------------------------------------------------------------------
  // Contours and the bubble filter
  // ---------------------------------------------------------------------

  /** One external contour of the thresholded image: the top-left corner of
      its bounding box, its area and closed arc length, its circularity
      `4*pi*area/perimeter^2`, the vertex count of its polygon approximation
      and the number of ink pixels inside it. */
  datatype Contour = Contour(
    x: int, y: int,
    area: real, perimeter: real, circularity: real,
    vertices: nat, filled: nat)

  const MinBubbleArea: real := 100.0
  const MaxBubbleArea: real := 2500.0
  const MinCircularity: real := 0.6
  const MinVertices: nat := 5

  /** The tests a contour passes to count as an answer bubble. */
  predicate IsAnswerBubble(c: Contour) {
    && MinBubbleArea < c.area < MaxBubbleArea
    && c.perimeter > 0.0
    && c.circularity > MinCircularity
    && c.vertices >= MinVertices
  }

  /** The loop that collects the bubbles, in contour order. */
  method SelectBubbles(cnts: seq<Contour>) returns (bubbles: seq<Contour>)
    ensures bubbles == Filter(cnts, IsAnswerBubble)
  {
    bubbles := [];
    var i := 0;
    while i < |cnts|
      invariant 0 <= i <= |cnts|
      invariant bubbles == Filter(cnts[..i], IsAnswerBubble)
    {
      var c := cnts[i];
      assert cnts[..i + 1] == cnts[..i] + [c];
      FilterAppend(cnts[..i], [c], IsAnswerBubble);
      assert [c][1..] == [];
      if IsAnswerBubble(c) {
        bubbles := bubbles + [c];
      }
      i := i + 1;
    }
    assert cnts[..i] == cnts;
  }

  /** The selected contours are exactly the bubbles among the contours. */
  lemma SelectedAreBubbles(cnts: seq<Contour>, c: Contour)
    ensures c in Filter(cnts, IsAnswerBubble) <==> c in cnts && IsAnswerBubble(c)
  {
    FilterMembers(cnts, IsAnswerBubble, c);
  }

  // ---------------------------------------------------------------------
  // Grouping bubbles into rows
  // ---------------------------------------------------------------------

  /** Order by the top of the bounding box (`sorted(..., key=y)`). */
  predicate ByY(a: Contour, b: Contour) {
    a.y <= b.y
  }

  /** Order by the left of the bounding box (`sort_contours(row, "left-to-right")`). */
  predicate ByX(a: Contour, b: Contour) {
    a.x <= b.x
  }

  lemma ContourOrdersArePreorders()
    ensures TotalPreorder(ByY) && TotalPreorder(ByX)
  {
  }

  const SameRowThreshold := 20

  /** `abs(y - last_y) <= threshold_same_row`. */
  predicate SameRow(lastY: int, y: int) {
    -SameRowThreshold <= y - lastY <= SameRowThreshold
  }

  function Flatten(rows: seq<seq<Contour>>): seq<Contour> {
    if rows == [] then [] else Flatten(rows[..|rows| - 1]) + rows[|rows| - 1]
  }

  /** The rows built by the grouping loop from contours sorted by `y`: a
      contour joins the current row when its `y` is within the threshold of
      the previous contour's `y`, and starts a new row otherwise. */
  function Group(s: seq<Contour>): (rows: seq<seq<Contour>>)
    ensures (rows == []) == (s == [])
  {
    if s == [] then []
    else
      var init := s[..|s| - 1];
      var c := s[|s| - 1];
      var g := Group(init);
      if init != [] && SameRow(init[|init| - 1].y, c.y) then
        g[..|g| - 1] + [g[|g| - 1] + [c]]
      else
        g + [[c]]
  }

  /** `rows` cut `s` into non-empty runs, breaking exactly between two
      neighbours that are too far apart vertically. */
  predicate IsRowPartition(s: seq<Contour>, rows: seq<seq<Contour>>) {
    Flatten(rows) == s && RowsNonEmpty(rows) && RowsClose(rows) && RowsBreak(rows)
  }

  predicate RowsNonEmpty(rows: seq<seq<Contour>>) {
    forall k :: 0 <= k < |rows| ==> rows[k] != []
  }

  /** Neighbours within a row are within the threshold. */
  predicate RowsClose(rows: seq<seq<Contour>>) {
    forall k, i :: 0 <= k < |rows| && 0 < i < |rows[k]| ==>
      SameRow(rows[k][i - 1].y, rows[k][i].y)
  }

  /** Each row starts beyond the threshold from the end of the previous one. */
  predicate RowsBreak(rows: seq<seq<Contour>>)
    requires RowsNonEmpty(rows)
  {
    forall k :: 0 < k < |rows| ==> !SameRow(Last(rows[k - 1]).y, rows[k][0].y)
  }

  function Last(row: seq<Contour>): Contour
    requires row != []
  {
    row[|row| - 1]
  }

  lemma LastOfFlatten(rows: seq<seq<Contour>>)
    requires rows != [] && rows[|rows| - 1] != []
    ensures Flatten(rows) != [] && Last(Flatten(rows)) == Last(rows[|rows| - 1])
  {
  }

  lemma FlattenSnoc(rows: seq<seq<Contour>>, row: seq<Contour>)
    ensures Flatten(rows + [row]) == Flatten(rows) + row
  {
    assert (rows + [row])[..|rows|] == rows;
  }

  /** A contour close to the last one extends the last row. */
  lemma ExtendLastRow(init: seq<Contour>, c: Contour, g: seq<seq<Contour>>)
    requires IsRowPartition(init, g) && init != []
    requires SameRow(Last(init).y, c.y)
    ensures IsRowPartition(init + [c], g[..|g| - 1] + [g[|g| - 1] + [c]])
  {
    assert g != [];
    var m := |g|;
    var rows: seq<seq<Contour>> := g[..m - 1] + [g[m - 1] + [c]];
    assert g == g[..m - 1] + [g[m - 1]];
    FlattenSnoc(g[..m - 1], g[m - 1]);
    FlattenSnoc(g[..m - 1], g[m - 1] + [c]);
    LastOfFlatten(g);
    assert forall k :: 0 <= k < m - 1 ==> rows[k] == g[k];
    assert RowsNonEmpty(rows);
    ExtendClose(g, c);
    ExtendBreak(g, c);
  }

  lemma ExtendClose(g: seq<seq<Contour>>, c: Contour)
    requires g != [] && RowsNonEmpty(g) && RowsClose(g)
    requires SameRow(Last(g[|g| - 1]).y, c.y)
    ensures RowsClose(g[..|g| - 1] + [g[|g| - 1] + [c]])
  {
    var m := |g|;
    var rows: seq<seq<Contour>> := g[..m - 1] + [g[m - 1] + [c]];
    forall k, i | 0 <= k < |rows| && 0 < i < |rows[k]|
      ensures SameRow(rows[k][i - 1].y, rows[k][i].y)
    {
      if k < m - 1 {
        assert rows[k] == g[k];
      } else if i < |g[m - 1]| {
        assert rows[k][i - 1] == g[m - 1][i - 1] && rows[k][i] == g[m - 1][i];
      } else {
        assert rows[k][i - 1] == Last(g[m - 1]) && rows[k][i] == c;
      }
    }
  }

  lemma ExtendBreak(g: seq<seq<Contour>>, c: Contour)
    requires g != [] && RowsNonEmpty(g) && RowsBreak(g)
    ensures RowsNonEmpty(g[..|g| - 1] + [g[|g| - 1] + [c]])
    ensures RowsBreak(g[..|g| - 1] + [g[|g| - 1] + [c]])
  {
    var m := |g|;
    var rows: seq<seq<Contour>> := g[..m - 1] + [g[m - 1] + [c]];
    assert forall k :: 0 <= k < m - 1 ==> rows[k] == g[k];
    assert RowsNonEmpty(rows);
    forall k | 0 < k < |rows|
      ensures !SameRow(Last(rows[k - 1]).y, rows[k][0].y)
    {
      assert rows[k - 1] == g[k - 1];
      assert rows[k][0] == g[k][0];
    }
  }

  /** A contour far from the last one, or the first contour, starts a row. */
  lemma StartRow(init: seq<Contour>, c: Contour, g: seq<seq<Contour>>)
    requires IsRowPartition(init, g)
    requires init != [] ==> !SameRow(Last(init).y, c.y)
    ensures IsRowPartition(init + [c], g + [[c]])
  {
    var rows: seq<seq<Contour>> := g + [[c]];
    FlattenSnoc(g, [c]);
    assert forall k :: 0 <= k < |g| ==> rows[k] == g[k];
    assert rows[|g|] == [c];
    if g != [] {
      LastOfFlatten(g);
    }
  }

  /** The grouping loop cuts the sorted contours into rows as described. */
  lemma {:induction false} GroupIsRowPartition(s: seq<Contour>)
    ensures IsRowPartition(s, Group(s))
  {
    if s != [] {
      var init := s[..|s| - 1];
      var c := s[|s| - 1];
      GroupIsRowPartition(init);
      assert s == init + [c];
      if init != [] && SameRow(Last(init).y, c.y) {
        ExtendLastRow(init, c, Group(init));
      } else {
        StartRow(init, c, Group(init));
      }
    }
  }

  /** The grouping loop itself, with `last_y` starting at -100. */
  method GroupRows(sorted: seq<Contour>) returns (rows: seq<seq<Contour>>)
    ensures rows == Group(sorted)
  {
    rows := [];
    var current: seq<Contour> := [];
    var lastY := -100;
    var i := 0;
    while i < |sorted|
      invariant 0 <= i <= |sorted|
      invariant Group(sorted[..i]) == if current == [] then rows else rows + [current]
      invariant (current == []) == (i == 0)
      invariant i > 0 ==> lastY == sorted[i - 1].y
    {
      var cnt := sorted[i];
      var y := cnt.y;
      assert sorted[..i + 1][..i] == sorted[..i];
      ghost var g := Group(sorted[..i]);
      assert Group(sorted[..i + 1]) ==
        if i > 0 && SameRow(sorted[i - 1].y, y) then g[..|g| - 1] + [g[|g| - 1] + [cnt]] else g + [[cnt]];
      if current == [] {
        assert g == rows;
        current := [cnt];
      } else if !SameRow(lastY, y) {
        assert g == rows + [current];
        rows := rows + [current];
        current := [cnt];
      } else {
        assert g[..|g| - 1] == rows && g[|g| - 1] == current;
        current := current + [cnt];
      }
      lastY := y;
      i := i + 1;
    }
    assert sorted[..i] == sorted;
    if current != [] {
      rows := rows + [current];
    }
  }

  /** Each row sorted left to right. */
  function OrderRows(rows: seq<seq<Contour>>): (r: seq<seq<Contour>>)
    ensures |r| == |rows|
    ensures forall k :: 0 <= k < |rows| ==> r[k] == Sort(rows[k], ByX)
  {
    seq(|rows|, k requires 0 <= k < |rows| => Sort(rows[k], ByX))
  }

  /** Every ordered row is sorted by `x` and holds the bubbles of its row. */
  lemma OrderRowsSortsEach(rows: seq<seq<Contour>>, k: nat)
    requires k < |rows|
    ensures SortedBy(OrderRows(rows)[k], ByX)
    ensures multiset(OrderRows(rows)[k]) == multiset(rows[k])
  {
    ContourOrdersArePreorders();
    SortSorted(rows[k], ByX);
    SortPermutes(rows[k], ByX);
  }

  // ---------------------------------------------------------------------
  // Scoring one row of bubbles
  // ---------------------------------------------------------------------

  function Fills(slots: seq<Contour>): (f: seq<nat>)
    ensures |f| == |slots|
    ensures forall j :: 0 <= j < |slots| ==> f[j] == slots[j].filled
  {
    seq(|slots|, j requires 0 <= j < |slots| => slots[j].filled)
  }

  /** `filled_pixels / max(total_area, 1) * 100`. */
  function FillPercentage(c: Contour): real {
    c.filled as real / (if c.area > 1.0 then c.area else 1.0) * 100.0
  }

  function Percentages(slots: seq<Contour>): (p: seq<real>)
    ensures |p| == |slots|
  {
    seq(|slots|, j requires 0 <= j < |slots| => FillPercentage(slots[j]))
  }

  predicate Descending(a: real, b: real) {
    a >= b
  }

  const AmbiguityGap: real := 15.0
  const AmbiguousPeak: nat := 40
  const MarkFloor: nat := 30

  /** The two largest fill percentages differ by less than 15 points. */
  predicate Ambiguous(pcts: seq<real>) {
    |pcts| >= 2 &&
    var sorted := Sort(pcts, Descending);
    sorted[0] - sorted[1] < AmbiguityGap
  }

  /** The first entry of the descending sort is the largest percentage. */
  lemma TopPercentageIsMaximum(pcts: seq<real>)
    requires |pcts| >= 2
    ensures var sorted := Sort(pcts, Descending);
            sorted[0] in pcts && forall j :: 0 <= j < |pcts| ==> pcts[j] <= sorted[0]
  {
    var sorted := Sort(pcts, Descending);
    assert TotalPreorder(Descending);
    SortSorted(pcts, Descending);
    SortPermutes(pcts, Descending);
    assert sorted[0] in multiset(sorted);
    forall j | 0 <= j < |pcts| ensures pcts[j] <= sorted[0] {
      assert pcts[j] in multiset(sorted);
      var k :| 0 <= k < |sorted| && sorted[k] == pcts[j];
      if k > 0 {
        assert Descending(sorted[0], sorted[k]);
      }
    }
  }

  /** The answer for a row of five bubbles: the leftmost bubble with the most
      ink, dropped when the percentages are too close and the ink is below
      40 pixels, and emitted only above 30 pixels. */
  function RowAnswer(slots: seq<Contour>): Answer
    requires |slots| == Alternatives
  {
    var fills := Fills(slots);
    var index := ArgMax(fills);
    var index' := if Ambiguous(Percentages(slots)) && Peak(fills) < AmbiguousPeak then -1 else index;
    if index' != -1 && Peak(fills) > MarkFloor then Letter(index') else ""
  }

  /** A row answer is the plain arg-max pick above 30 pixels unless the
      ambiguity guard fires; a letter comes out exactly when the largest ink
      count is above 30 and the guard does not fire. */
  lemma RowAnswerSpec(slots: seq<Contour>)
    requires |slots| == Alternatives
    ensures IsAnswer(RowAnswer(slots))
    ensures var fills := Fills(slots);
            RowAnswer(slots) == if Ambiguous(Percentages(slots)) && Peak(fills) < AmbiguousPeak then ""
                                else Pick(fills, MarkFloor)
    ensures RowAnswer(slots) != "" <==>
              Peak(Fills(slots)) > MarkFloor
              && !(Ambiguous(Percentages(slots)) && Peak(Fills(slots)) < AmbiguousPeak)
  {
    ArgMaxIsLeftmostMaximum(Fills(slots));
    PickSpec(Fills(slots), MarkFloor);
  }

  /** The scoring loop for one row. */
  method ScoreRow(slots: seq<Contour>) returns (a: Answer)
    requires |slots| == Alternatives
    ensures a == RowAnswer(slots)
  {
    var maxFilled, answerIndex, percentages := ScanRow(slots);
    if |percentages| >= 2 {
      var sorted := Sort(percentages, Descending);
      if |sorted| > 1 && sorted[0] - sorted[1] < AmbiguityGap {
        if maxFilled < AmbiguousPeak {
          answerIndex := -1;
        }
      }
    }
    if answerIndex != -1 && maxFilled > MarkFloor {
      a := Letter(answerIndex);
    } else {
      a := "";
    }
  }

  /** The pass over the row's bubbles: the most ink, where it first occurs,
      and the fill percentages. */
  method ScanRow(slots: seq<Contour>) returns (maxFilled: nat, answerIndex: int, percentages: seq<real>)
    ensures maxFilled == Peak(Fills(slots))
    ensures answerIndex == ArgMax(Fills(slots))
    ensures percentages == Percentages(slots)
  {
    ghost var f := Fills(slots);
    ghost var pcts := Percentages(slots);
    maxFilled := 0;
    answerIndex := -1;
    percentages := [];
    var j := 0;
    while j < |slots|
      invariant 0 <= j <= |slots|
      invariant maxFilled == Peak(f[..j])
      invariant answerIndex == ArgMax(f[..j])
      invariant percentages == pcts[..j]
    {
      ghost var pre := f[..j + 1];
      assert pre[..j] == f[..j] && pre[j] == slots[j].filled;
      assert pcts[..j + 1] == pcts[..j] + [FillPercentage(slots[j])];
      var filled := slots[j].filled;
      percentages := percentages + [FillPercentage(slots[j])];
      if filled > maxFilled {
        maxFilled := filled;
        answerIndex := j;
      }
      j := j + 1;
    }
    assert f[..j] == f;
    assert pcts[..j] == pcts;
  }

  /** Rows with at least five bubbles are scored; the others are skipped. */
  predicate IsFullRow(row: seq<Contour>) {
    |row| >= Alternatives
  }

  /** One answer per full row, from its first five bubbles. */
  function RowsAnswers(rows: seq<seq<Contour>>): (r: seq<Answer>)
  {
    var full := Filter(rows, IsFullRow);
    seq(|full|, i requires 0 <= i < |full| =>
      FullRowMember(rows, i);
      RowAnswer(full[i][..Alternatives]))
  }

  lemma FullRowMember(rows: seq<seq<Contour>>, i: int)
    requires 0 <= i < |Filter(rows, IsFullRow)|
    ensures IsFullRow(Filter(rows, IsFullRow)[i])
  {
    FilterMembers(rows, IsFullRow, Filter(rows, IsFullRow)[i]);
  }

  /** One answer per full row, each a valid answer, and none for a short row. */
  lemma RowsAnswersSpec(rows: seq<seq<Contour>>)
    ensures |RowsAnswers(rows)| == |Filter(rows, IsFullRow)| <= |rows|
    ensures AllAnswers(RowsAnswers(rows))
    ensures (forall k :: 0 <= k < |rows| ==> |rows[k]| < Alternatives) ==> RowsAnswers(rows) == []
  {
    var full := Filter(rows, IsFullRow);
    forall i | 0 <= i < |full| ensures IsAnswer(RowsAnswers(rows)[i]) {
      FullRowMember(rows, i);
      RowAnswerSpec(full[i][..Alternatives]);
    }
    if full != [] && forall k :: 0 <= k < |rows| ==> |rows[k]| < Alternatives {
      FilterMembers(rows, IsFullRow, full[0]);
    }
  }

  /** The loop over the rows. */
  method DetectRows(rows: seq<seq<Contour>>) returns (detected: seq<Answer>)
    ensures detected == RowsAnswers(rows)
  {
    detected := [];
    var k := 0;
    while k < |rows|
      invariant 0 <= k <= |rows|
      invariant detected == RowsAnswers(rows[..k])
    {
      var row := rows[k];
      assert rows[..k + 1] == rows[..k] + [row];
      FilterAppend(rows[..k], [row], IsFullRow);
      assert [row][1..] == [];
      ghost var before := Filter(rows[..k], IsFullRow);
      ghost var after := Filter(rows[..k + 1], IsFullRow);
      if |row| < Alternatives {
        assert after == before;
      } else {
        assert after == before + [row];
        var slots := row[..Alternatives];
        var a := ScoreRow(slots);
        detected := detected + [a];
        assert forall i :: 0 <= i < |before| ==> after[i] == before[i];
      }
      k := k + 1;
    }
    assert rows[..k] == rows;
  }

  /** Answers from the bubbles: sort by `y`, group, order each row by `x`
      and score the full rows. */
  function ContourAnswers(bubbles: seq<Contour>): seq<Answer> {
    RowsAnswers(OrderRows(Group(Sort(bubbles, ByY))))
  }

  /** The bubbles give valid answers, none without bubbles, and at most one
      per five bubbles, since only rows of five or more are read. */
  lemma ContourAnswersSpec(bubbles: seq<Contour>)
    ensures AllAnswers(ContourAnswers(bubbles))
    ensures |ContourAnswers(bubbles)| * Alternatives <= |bubbles|
  {
    var sorted := Sort(bubbles, ByY);
    var rows := OrderRows(Group(sorted));
    RowsAnswersSpec(rows);
    GroupIsRowPartition(sorted);
    OrderRowsLength(Group(sorted));
    FullRowsBound(rows);
  }

  /** Ordering each row keeps the number of bubbles. */
  lemma {:induction false} OrderRowsLength(rows: seq<seq<Contour>>)
    ensures |Flatten(OrderRows(rows))| == |Flatten(rows)|
  {
    if rows != [] {
      var init := rows[..|rows| - 1];
      OrderRowsLength(init);
      assert OrderRows(rows)[..|rows| - 1] == OrderRows(init);
    }
  }

  /** Each full row holds at least five bubbles. */
  lemma {:induction false} FullRowsBound(rows: seq<seq<Contour>>)
    ensures |Filter(rows, IsFullRow)| * Alternatives <= |Flatten(rows)|
  {
    if rows != [] {
      var init := rows[..|rows| - 1];
      var last := rows[|rows| - 1];
      FullRowsBound(init);
      assert rows == init + [last];
      FilterAppend(init, [last], IsFullRow);
      assert [last][1..] == [];
    }
  }

  // ---------------------------------------------------------------------
  // The fixed grids
  // ---------------------------------------------------------------------

  /** Ink pixels inside the circle of centre `(x, y)` and the given radius. */
  type Ink = (int, int, int) -> nat

  /** Where the alternatives of one question are sampled. */
  datatype Centre = Centre(y: int, xs: seq<int>)

  function RowFills(ink: Ink, c: Centre, radius: int): (f: seq<nat>)
    ensures |f| == |c.xs|
    ensures forall j :: 0 <= j < |c.xs| ==> f[j] == ink(c.xs[j], c.y, radius)
  {
    seq(|c.xs|, j requires 0 <= j < |c.xs| => ink(c.xs[j], c.y, radius))
  }

  predicate FitsAlternatives(cs: seq<Centre>) {
    forall q :: 0 <= q < |cs| ==> |cs[q].xs| <= Alternatives
  }

  /** One picked letter per sampled question. */
  function FixedAnswers(ink: Ink, cs: seq<Centre>, radius: int, floor: nat): (r: seq<Answer>)
    requires FitsAlternatives(cs)
    ensures |r| == |cs|
    ensures forall q :: 0 <= q < |cs| ==> r[q] == Pick(RowFills(ink, cs[q], radius), floor)
  {
    seq(|cs|, q requires 0 <= q < |cs| => Pick(RowFills(ink, cs[q], radius), floor))
  }

  /** Each sampled question yields a valid answer, blank exactly when no
      alternative has more ink than the floor, and otherwise the leftmost
      alternative with the most ink. */
  lemma FixedAnswersSpec(ink: Ink, cs: seq<Centre>, radius: int, floor: nat, q: nat)
    requires FitsAlternatives(cs) && q < |cs|
    ensures |FixedAnswers(ink, cs, radius, floor)| == |cs|
    ensures IsAnswer(FixedAnswers(ink, cs, radius, floor)[q])
    ensures FixedAnswers(ink, cs, radius, floor)[q] == "" <==>
              forall j :: 0 <= j < |cs[q].xs| ==> ink(cs[q].xs[j], cs[q].y, radius) <= floor
    ensures FixedAnswers(ink, cs, radius, floor)[q] != "" ==>
              exists j :: 0 <= j < |cs[q].xs| && FixedAnswers(ink, cs, radius, floor)[q] == Letter(j)
                && (forall i :: 0 <= i < |cs[q].xs| ==> ink(cs[q].xs[i], cs[q].y, radius) <= ink(cs[q].xs[j], cs[q].y, radius))
                && (forall i :: 0 <= i < j ==> ink(cs[q].xs[i], cs[q].y, radius) < ink(cs[q].xs[j], cs[q].y, radius))
  {
    var f := RowFills(ink, cs[q], radius);
    PickMeaning(f, floor);
    if exists j :: 0 <= j < |cs[q].xs| && ink(cs[q].xs[j], cs[q].y, radius) > floor {
      var j :| 0 <= j < |cs[q].xs| && ink(cs[q].xs[j], cs[q].y, radius) > floor;
      assert f[j] > floor;
    }
  }

  /** The sampling loops shared by the grid and the G5 template. */
  method ScoreFixed(ink: Ink, cs: seq<Centre>, radius: int, floor: nat) returns (results: seq<Answer>)
    requires FitsAlternatives(cs)
    ensures results == FixedAnswers(ink, cs, radius, floor)
  {
    ghost var expected := FixedAnswers(ink, cs, radius, floor);
    results := [];
    var q := 0;
    while q < |cs|
      invariant 0 <= q <= |cs|
      invariant results == expected[..q]
    {
      var fills := SampleRow(ink, cs[q], radius);
      var a := PickLetter(fills, floor);
      assert a == expected[q];
      assert expected[..q + 1] == expected[..q] + [a];
      results := results + [a];
      q := q + 1;
    }
    assert expected[..q] == expected;
  }

  /** The inner loop: the ink at each centre of one question. */
  method SampleRow(ink: Ink, c: Centre, radius: int) returns (fills: seq<nat>)
    ensures fills == RowFills(ink, c, radius)
  {
    ghost var expected := RowFills(ink, c, radius);
    fills := [];
    var j := 0;
    while j < |c.xs|
      invariant 0 <= j <= |c.xs|
      invariant fills == expected[..j]
    {
      assert expected[..j + 1] == expected[..j] + [ink(c.xs[j], c.y, radius)];
      fills := fills + [ink(c.xs[j], c.y, radius)];
      j := j + 1;
    }
    assert expected[..j] == expected;
  }

  /** A region of the grid: its vertical extent and the centres of A to E. */
  datatype Region = Region(yStart: int, yEnd: int, xs: seq<int>)

  const GridColumns: seq<int> := [450, 500, 550, 600, 650]

  const FiveQuestionGrid: seq<Region> := [
    Region(475, 525, GridColumns),
    Region(540, 590, GridColumns),
    Region(605, 655, GridColumns),
    Region(670, 720, GridColumns),
    Region(735, 785, GridColumns)
  ]

  const MaxGridQuestions := 20
  const GridRowHeight := 40
  const GridRadius := 20
  const GridFloor: nat := 30

  /** The first row and the spacing of the generated grid, by question count. */
  function GridSpacing(n: nat): (int, int) {
    if n <= 10 then (450, 50) else if n <= 15 then (420, 40) else (400, 30)
  }

  function GeneratedGrid(baseY: int, yGap: int, count: nat): (rs: seq<Region>)
    ensures |rs| == count
    ensures forall i :: 0 <= i < count ==>
              rs[i] == Region(baseY + i * yGap, baseY + i * yGap + GridRowHeight, GridColumns)
  {
    if count == 0 then []
    else
      var yStart := baseY + (count - 1) * yGap;
      GeneratedGrid(baseY, yGap, count - 1) + [Region(yStart, yStart + GridRowHeight, GridColumns)]
  }

  /** The five fixed regions up to five questions, and otherwise
      `min(n, 20)` generated regions. */
  function GridRegions(n: nat): (rs: seq<Region>)
    ensures n <= 5 ==> rs == FiveQuestionGrid
    ensures n > 5 ==> |rs| == Min(n, MaxGridQuestions)
  {
    if n <= 5 then FiveQuestionGrid
    else GeneratedGrid(GridSpacing(n).0, GridSpacing(n).1, Min(n, MaxGridQuestions))
  }

  /** The region's centre line, `(y_start + y_end) // 2`. */
  function CentreOf(r: Region): Centre {
    Centre((r.yStart + r.yEnd) / 2, r.xs)
  }

  function Centres(rs: seq<Region>): (cs: seq<Centre>)
    ensures |cs| == |rs|
    ensures forall q :: 0 <= q < |rs| ==> cs[q] == CentreOf(rs[q])
  {
    seq(|rs|, q requires 0 <= q < |rs| => CentreOf(rs[q]))
  }

  lemma GridFits(n: nat)
    ensures FitsAlternatives(Centres(GridRegions(n)))
  {
  }

  /** The fixed-grid answers: the first `min(regions, n)` regions scored
      with radius 20 and floor 30, padded to `n`. */
  function GridAnswers(ink: Ink, n: nat): seq<Answer> {
    var cs := Centres(GridRegions(n));
    GridFits(n);
    PadTo(FixedAnswers(ink, cs[..Min(|cs|, n)], GridRadius, GridFloor), n)
  }

  /** The grid yields exactly `n` answers; question `q` is sampled at the
      centre line of its region when it has one, and is blank otherwise. */
  lemma GridAnswersSpec(ink: Ink, n: nat)
    ensures |GridAnswers(ink, n)| == n
    ensures AllAnswers(GridAnswers(ink, n))
    ensures forall q :: 0 <= q < n ==>
              GridAnswers(ink, n)[q] ==
                if q < |GridRegions(n)|
                then Pick(RowFills(ink, CentreOf(GridRegions(n)[q]), GridRadius), GridFloor)
                else ""
  {
    var cs := Centres(GridRegions(n));
    GridFits(n);
    var fixed := FixedAnswers(ink, cs[..Min(|cs|, n)], GridRadius, GridFloor);
    forall q | 0 <= q < |fixed| ensures IsAnswer(fixed[q]) {
      FixedAnswersSpec(ink, cs[..Min(|cs|, n)], GridRadius, GridFloor, q);
    }
    forall q | 0 <= q < n && q < |fixed|
      ensures GridAnswers(ink, n)[q] == fixed[q]
    {
      assert PadTo(fixed, n)[..|fixed|][q] == fixed[q];
    }
  }

  /** Beyond five questions, row `i` of the grid is centred 20 pixels below
      `base + i * gap`. */
  lemma GeneratedRowCentre(n: nat, i: nat)
    requires 5 < n && i < Min(n, MaxGridQuestions)
    ensures CentreOf(GridRegions(n)[i])
         == Centre(GridSpacing(n).0 + i * GridSpacing(n).1 + GridRowHeight / 2, GridColumns)
  {
  }

  /** `_try_grid_approach`. */
  method TryGridApproach(ink: Ink, n: nat) returns (answers: seq<Answer>)
    ensures answers == GridAnswers(ink, n)
  {
    var regions: seq<Region>;
    if n <= 5 {
      regions := FiveQuestionGrid;
    } else {
      var (baseY, yGap) := GridSpacing(n);
      regions := [];
      var i := 0;
      while i < Min(n, MaxGridQuestions)
        invariant 0 <= i <= Min(n, MaxGridQuestions)
        invariant regions == GeneratedGrid(baseY, yGap, i)
      {
        var yStart := baseY + i * yGap;
        regions := regions + [Region(yStart, yStart + GridRowHeight, GridColumns)];
        i := i + 1;
      }
    }
    assert regions == GridRegions(n);
    GridFits(n);
    var cs := Centres(regions);
    // the loop breaks once `q_idx >= num_questions`
    var scored := ScoreFixed(ink, cs[..Min(|cs|, n)], GridRadius, GridFloor);
    answers := PadAnswers(scored, n);
  }

  /** The template of the G5 answer sheet: five centre lines, radius 25. */
  const G5Columns: seq<int> := [452, 503, 554, 605, 656]

  const G5Template: seq<Centre> := [
    Centre(490, G5Columns),
    Centre(548, G5Columns),
    Centre(606, G5Columns),
    Centre(664, G5Columns),
    Centre(722, G5Columns)
  ]

  const G5Radius := 25
  const G5Floor: nat := 50

  function G5Answers(ink: Ink): seq<Answer> {
    FixedAnswers(ink, G5Template, G5Radius, G5Floor)
  }

  /** Five answers, question `q` at centre line `490 + 58q`, each a pick
      above 50 pixels. */
  lemma G5AnswersSpec(ink: Ink)
    ensures |G5Answers(ink)| == 5 && AllAnswers(G5Answers(ink))
    ensures forall q :: 0 <= q < 5 ==>
              G5Answers(ink)[q] == Pick(RowFills(ink, Centre(490 + 58 * q, G5Columns), G5Radius), G5Floor)
  {
    G5TemplateLines();
    forall q | 0 <= q < 5 ensures IsAnswer(G5Answers(ink)[q]) {
      FixedAnswersSpec(ink, G5Template, G5Radius, G5Floor, q);
    }
  }

  /** The template's centre lines are 58 pixels apart from 490 down. */
  lemma G5TemplateLines()
    ensures |G5Template| == 5 && FitsAlternatives(G5Template)
    ensures forall q :: 0 <= q < 5 ==> G5Template[q] == Centre(490 + 58 * q, G5Columns)
  {
    forall q | 0 <= q < 5 ensures G5Template[q] == Centre(490 + 58 * q, G5Columns) {
      if q == 0 {
      } else if q == 1 {
      } else if q == 2 {
      } else if q == 3 {
      } else {
        assert q == 4;
      }
    }
  }

  /** `_process_specific_g5`. */
  method ProcessSpecificG5(ink: Ink) returns (results: seq<Answer>)
    ensures results == G5Answers(ink)
  {
    results := ScoreFixed(ink, G5Template, G5Radius, G5Floor);
  }

  // ---------------------------------------------------------------------
  // The fallback detection by regions
  // ---------------------------------------------------------------------

  /** A circle found in a region of the image, with the ink inside it. */
  datatype Circle = Circle(cx: int, cy: int, r: int, filled: nat)

  /** A horizontal line of the sheet: its top and its width. */
  datatype LineBox = LineBox(y: int, w: int)

  /** What the fallback learns from the image: its size, the horizontal lines,
      the circles detected in the band between two heights, and the ink in the
      cell `[ys, ye) x [xs, xe)`. */
  datatype Strips = Strips(
    height: nat, width: nat,
    lines: seq<LineBox>,
    circlesIn: (int, int) -> seq<Circle>,
    cellInk: (int, int, int, int) -> nat)

  const CircleFloor: nat := 20
  const ColumnFloor: nat := 50

  /** The tops of the lines wider than half the image, in line order. */
  function LongLineYs(lines: seq<LineBox>, width: nat): (ys: seq<int>)
    ensures |ys| <= |lines|
    ensures forall y :: y in ys <==>
              exists k :: 0 <= k < |lines| && 2 * lines[k].w > width && lines[k].y == y
  {
    if lines == [] then []
    else
      var init := lines[..|lines| - 1];
      var l := lines[|lines| - 1];
      assert forall k :: 0 <= k < |init| ==> init[k] == lines[k];
      LongLineYs(init, width) + (if 2 * l.w > width then [l.y] else [])
  }

  /** `horizontal_lines.sort()`. */
  function Separators(st: Strips): seq<int> {
    Sort(LongLineYs(st.lines, st.width), IntLe)
  }

  /** The separators are in increasing order and are the tops of the long lines. */
  lemma SeparatorsSpec(st: Strips)
    ensures SortedBy(Separators(st), IntLe)
    ensures multiset(Separators(st)) == multiset(LongLineYs(st.lines, st.width))
    ensures forall y :: y in Separators(st) <==>
              exists k :: 0 <= k < |st.lines| && 2 * st.lines[k].w > st.width && st.lines[k].y == y
  {
    var ys := LongLineYs(st.lines, st.width);
    assert TotalPreorder(IntLe);
    SortSorted(ys, IntLe);
    SortPermutes(ys, IntLe);
    forall y ensures y in Separators(st) <==> y in ys {
      assert y in Separators(st) <==> y in multiset(Separators(st));
      assert y in ys <==> y in multiset(ys);
    }
  }

  predicate ByCx(a: Circle, b: Circle) {
    a.cx <= b.cx
  }

  function CircleFills(cs: seq<Circle>): (f: seq<nat>)
    ensures |f| == |cs|
    ensures forall j :: 0 <= j < |cs| ==> f[j] == cs[j].filled
  {
    seq(|cs|, j requires 0 <= j < |cs| => cs[j].filled)
  }

  /** The circles sorted left to right, the first five, the leftmost with the
      most ink above 20 pixels. */
  function CircleAnswer(cs: seq<Circle>): Answer {
    Pick(CircleFills(FirstCircles(cs)), CircleFloor)
  }

  /** The circles sorted by `x`, the first five of them. */
  function FirstCircles(cs: seq<Circle>): (first: seq<Circle>)
    ensures |first| == Min(|cs|, Alternatives)
  {
    Sort(cs, ByCx)[..Min(|cs|, Alternatives)]
  }

  /** The column method: five equal columns `width // 5` wide, the leftmost
      with the most ink above 50 pixels. */
  function ColumnFills(st: Strips, ys: int, ye: int): (f: seq<nat>)
    ensures |f| == Alternatives
  {
    var w := st.width / Alternatives;
    seq(Alternatives, j requires 0 <= j < Alternatives => st.cellInk(ys, ye, j * w, (j + 1) * w))
  }

  /** A band of the equal split: circles if any were found, else columns. */
  function SliceAnswer(st: Strips, ys: int, ye: int): Answer {
    var cs := st.circlesIn(ys, ye);
    if cs != [] then CircleAnswer(cs) else Pick(ColumnFills(st, ys, ye), ColumnFloor)
  }

  /** A band between two separators: scored only with five circles or more. */
  function PairAnswer(st: Strips, ys: int, ye: int): Answer {
    var cs := st.circlesIn(ys, ye);
    if |cs| >= Alternatives then CircleAnswer(cs) else ""
  }

  /** The equal split: `n` bands of height `height // n`. */
  function SliceAnswers(st: Strips, n: nat): (r: seq<Answer>)
    requires n > 0
    ensures |r| == n
  {
    var h := st.height / n;
    seq(n, i requires 0 <= i < n => SliceAnswer(st, i * h, (i + 1) * h))
  }

  /** One band per pair of consecutive separators, at most `n`. */
  function PairAnswers(st: Strips, hl: seq<int>, n: nat): (r: seq<Answer>)
    requires |hl| >= 2
    ensures |r| == Min(|hl| - 1, n)
  {
    seq(Min(|hl| - 1, n), i requires 0 <= i < Min(|hl| - 1, n) => PairAnswer(st, hl[i], hl[i + 1]))
  }

  /** `_fallback_detection`. With no separators and no questions the division
      `height // 0` raises and the handler answers `[''] * 0`. */
  function FallbackAnswers(st: Strips, n: nat): seq<Answer> {
    var hl := Separators(st);
    if |hl| <= 1 then (if n == 0 then [] else SliceAnswers(st, n))
    else Take(PadTo(PairAnswers(st, hl, n), n), n)
  }

  /** A band's circles are read left to right, at most five of them: the
      answer is a letter exactly when one of those has more than 20 ink
      pixels, and it names the leftmost of those holding the most ink. */
  lemma CircleAnswerSpec(cs: seq<Circle>)
    ensures IsAnswer(CircleAnswer(cs))
    ensures SortedBy(FirstCircles(cs), ByCx) && multiset(FirstCircles(cs)) <= multiset(cs)
    ensures CircleAnswer(cs) != "" <==>
              exists j :: 0 <= j < |FirstCircles(cs)| && FirstCircles(cs)[j].filled > CircleFloor
    ensures CircleAnswer(cs) != "" ==>
              var first := FirstCircles(cs);
              exists j :: 0 <= j < |first| && CircleAnswer(cs) == Letter(j)
                && (forall i :: 0 <= i < |first| ==> first[i].filled <= first[j].filled)
                && (forall i :: 0 <= i < j ==> first[i].filled < first[j].filled)
  {
    FirstCirclesSpec(cs);
    CirclePick(FirstCircles(cs), CircleFills(FirstCircles(cs)));
  }

  /** The pick over the ink of at most five circles, in terms of the circles. */
  lemma CirclePick(first: seq<Circle>, f: seq<nat>)
    requires |first| <= Alternatives && |f| == |first|
    requires forall i :: 0 <= i < |f| ==> f[i] == first[i].filled
    ensures IsAnswer(Pick(f, CircleFloor))
    ensures Pick(f, CircleFloor) != "" <==>
              exists j :: 0 <= j < |first| && first[j].filled > CircleFloor
    ensures Pick(f, CircleFloor) != "" ==>
              exists j :: 0 <= j < |first| && Pick(f, CircleFloor) == Letter(j)
                && (forall i :: 0 <= i < |first| ==> first[i].filled <= first[j].filled)
                && (forall i :: 0 <= i < j ==> first[i].filled < first[j].filled)
  {
    PickMeaning(f, CircleFloor);
    CirclePickLetter(first, f);
    if exists j :: 0 <= j < |first| && first[j].filled > CircleFloor {
      var j :| 0 <= j < |first| && first[j].filled > CircleFloor;
      assert f[j] > CircleFloor;
    }
  }

  /** The letter read names the leftmost circle with the most ink. */
  lemma CirclePickLetter(first: seq<Circle>, f: seq<nat>)
    requires |first| <= Alternatives && |f| == |first|
    requires forall i :: 0 <= i < |f| ==> f[i] == first[i].filled
    ensures Pick(f, CircleFloor) != "" ==>
              exists j :: 0 <= j < |first| && Pick(f, CircleFloor) == Letter(j)
                && (forall i :: 0 <= i < |first| ==> first[i].filled <= first[j].filled)
                && (forall i :: 0 <= i < j ==> first[i].filled < first[j].filled)
  {
    PickMeaning(f, CircleFloor);
    if Pick(f, CircleFloor) != "" {
      var k :| 0 <= k < |f| && Pick(f, CircleFloor) == Letter(k)
                && (forall i :: 0 <= i < |f| ==> f[i] <= f[k])
                && (forall i :: 0 <= i < k ==> f[i] < f[k]);
      assert forall i :: 0 <= i < |first| ==> first[i].filled <= first[k].filled;
    }
  }

  /** The circles read are the first five by `x`. */
  lemma FirstCirclesSpec(cs: seq<Circle>)
    ensures SortedBy(FirstCircles(cs), ByCx) && multiset(FirstCircles(cs)) <= multiset(cs)
  {
    var sorted := Sort(cs, ByCx);
    ByCxTotal();
    SortSorted(cs, ByCx);
    SortPermutes(cs, ByCx);
    PrefixSorted(sorted, Min(|cs|, Alternatives), ByCx);
  }

  lemma ByCxTotal()
    ensures TotalPreorder(ByCx)
  {
  }

  /** A band of the equal split is read from its circles when it has any;
      otherwise from five columns `width // 5` wide, a letter exactly when
      some column has more than 50 ink pixels, naming the leftmost of the
      columns with the most ink. */
  lemma SliceAnswerSpec(st: Strips, ys: int, ye: int)
    ensures IsAnswer(SliceAnswer(st, ys, ye))
    ensures st.circlesIn(ys, ye) != [] ==> SliceAnswer(st, ys, ye) == CircleAnswer(st.circlesIn(ys, ye))
    ensures var w := st.width / Alternatives;
            forall j :: 0 <= j < Alternatives ==>
              ColumnFills(st, ys, ye)[j] == st.cellInk(ys, ye, j * w, (j + 1) * w)
    ensures st.circlesIn(ys, ye) == [] ==>
              var f := ColumnFills(st, ys, ye);
              && (SliceAnswer(st, ys, ye) != "" <==> exists j :: 0 <= j < Alternatives && f[j] > ColumnFloor)
              && (SliceAnswer(st, ys, ye) != "" ==>
                    exists j :: 0 <= j < Alternatives && SliceAnswer(st, ys, ye) == Letter(j)
                      && (forall i :: 0 <= i < Alternatives ==> f[i] <= f[j])
                      && (forall i :: 0 <= i < j ==> f[i] < f[j]))
  {
    CircleAnswerSpec(st.circlesIn(ys, ye));
    var f := ColumnFills(st, ys, ye);
    PickMeaning(f, ColumnFloor);
  }

  /** A band between two separators is read only with five circles or more. */
  lemma PairAnswerSpec(st: Strips, ys: int, ye: int)
    ensures IsAnswer(PairAnswer(st, ys, ye))
    ensures |st.circlesIn(ys, ye)| < Alternatives ==> PairAnswer(st, ys, ye) == ""
    ensures |st.circlesIn(ys, ye)| >= Alternatives ==> PairAnswer(st, ys, ye) == CircleAnswer(st.circlesIn(ys, ye))
  {
    CircleAnswerSpec(st.circlesIn(ys, ye));
  }

  /** The fallback yields exactly `n` valid answers. Without separators,
      question `i` is read from the band `[i * h, (i + 1) * h)` with
      `h = height // n`; with separators, from the band between separators
      `i` and `i + 1`, and questions beyond the bands are blank. */
  lemma FallbackAnswersSpec(st: Strips, n: nat)
    ensures |FallbackAnswers(st, n)| == n
    ensures AllAnswers(FallbackAnswers(st, n))
    ensures |Separators(st)| <= 1 && n > 0 ==>
              var h := st.height / n;
              forall i :: 0 <= i < n ==> FallbackAnswers(st, n)[i] == SliceAnswer(st, i * h, (i + 1) * h)
    ensures |Separators(st)| >= 2 ==>
              forall i :: 0 <= i < n ==>
                FallbackAnswers(st, n)[i] ==
                  if i < |Separators(st)| - 1
                  then PairAnswer(st, Separators(st)[i], Separators(st)[i + 1])
                  else ""
  {
    var hl := Separators(st);
    if |hl| <= 1 {
      if n > 0 {
        assert FallbackAnswers(st, n) == SliceAnswers(st, n);
        SliceAnswersValid(st, n);
      }
    } else {
      FallbackPairs(st, hl, n);
    }
  }

  /** With separators the bands are resized to exactly `n` answers. */
  lemma FallbackPairs(st: Strips, hl: seq<int>, n: nat)
    requires hl == Separators(st) && |hl| >= 2
    ensures |FallbackAnswers(st, n)| == n
    ensures AllAnswers(FallbackAnswers(st, n))
    ensures forall i :: 0 <= i < n ==>
              FallbackAnswers(st, n)[i] == if i < |hl| - 1 then PairAnswer(st, hl[i], hl[i + 1]) else ""
  {
    var r := PairAnswers(st, hl, n);
    assert FallbackAnswers(st, n) == Take(PadTo(r, n), n);
    PairAnswersValid(st, hl, n);
    ResizeExact(r, n);
  }

  /** Every band of the equal split yields a valid answer. */
  lemma SliceAnswersValid(st: Strips, n: nat)
    requires n > 0
    ensures AllAnswers(SliceAnswers(st, n))
  {
    var r := SliceAnswers(st, n);
    var h := st.height / n;
    forall i | 0 <= i < n ensures IsAnswer(r[i]) {
      assert r[i] == SliceAnswer(st, i * h, (i + 1) * h);
      SliceAnswerSpec(st, i * h, (i + 1) * h);
    }
  }

  /** Every band between two separators yields a valid answer. */
  lemma PairAnswersValid(st: Strips, hl: seq<int>, n: nat)
    requires |hl| >= 2
    ensures AllAnswers(PairAnswers(st, hl, n))
  {
    var r := PairAnswers(st, hl, n);
    forall i | 0 <= i < |r| ensures IsAnswer(r[i]) {
      assert i + 1 < |hl|;
      PairAnswerSpec(st, hl[i], hl[i + 1]);
    }
  }

  /** Scores a list of detected circles. */
  method ScoreCircles(circles: seq<Circle>) returns (a: Answer)
    ensures a == CircleAnswer(circles)
  {
    var sorted := Sort(circles, ByCx);
    var first := sorted[..Min(|sorted|, Alternatives)];
    assert first == FirstCircles(circles);
    var fills: seq<nat> := [];
    var j := 0;
    while j < |first|
      invariant 0 <= j <= |first|
      invariant fills == CircleFills(first)[..j]
    {
      fills := fills + [first[j].filled];
      j := j + 1;
    }
    assert fills == CircleFills(first);
    a := PickLetterAbove(fills, CircleFloor);
  }

  /** The column method on one band. */
  method ScoreColumns(st: Strips, ys: int, ye: int) returns (a: Answer)
    ensures a == Pick(ColumnFills(st, ys, ye), ColumnFloor)
  {
    var colWidth := st.width / Alternatives;
    var fills: seq<nat> := [];
    var j := 0;
    while j < Alternatives
      invariant 0 <= j <= Alternatives
      invariant fills == ColumnFills(st, ys, ye)[..j]
    {
      var xStart := j * colWidth;
      var xEnd := (j + 1) * colWidth;
      fills := fills + [st.cellInk(ys, ye, xStart, xEnd)];
      j := j + 1;
    }
    assert fills == ColumnFills(st, ys, ye);
    a := PickLetterAbove(fills, ColumnFloor);
  }

  /** The loop collecting the tops of the long lines. */
  method LongLines(boxes: seq<LineBox>, width: nat) returns (lines: seq<int>)
    ensures lines == LongLineYs(boxes, width)
  {
    lines := [];
    var c := 0;
    while c < |boxes|
      invariant 0 <= c <= |boxes|
      invariant lines == LongLineYs(boxes[..c], width)
    {
      assert boxes[..c + 1][..c] == boxes[..c];
      if 2 * boxes[c].w > width {
        lines := lines + [boxes[c].y];
      }
      c := c + 1;
    }
    assert boxes[..c] == boxes;
  }

  /** The equal split: one band of height `height // n` per question. */
  method ScoreSlices(st: Strips, n: nat) returns (answers: seq<Answer>)
    requires n > 0
    ensures answers == SliceAnswers(st, n)
  {
    answers := [];
    var regionHeight := st.height / n;
    ghost var expected := SliceAnswers(st, n);
    var i := 0;
    while i < n
      invariant 0 <= i <= n
      invariant answers == expected[..i]
    {
      var yStart := i * regionHeight;
      var yEnd := (i + 1) * regionHeight;
      var circles := st.circlesIn(yStart, yEnd);
      var a: Answer;
      if circles != [] {
        a := ScoreCircles(circles);
      } else {
        a := ScoreColumns(st, yStart, yEnd);
      }
      assert a == expected[i];
      assert expected[..i + 1] == expected[..i] + [a];
      answers := answers + [a];
      i := i + 1;
    }
    assert expected[..n] == expected;
  }

  /** The bands between consecutive separators, at most `n` of them. */
  method ScorePairs(st: Strips, lines: seq<int>, n: nat) returns (answers: seq<Answer>)
    requires |lines| >= 2
    ensures answers == PairAnswers(st, lines, n)
  {
    answers := [];
    ghost var expected := PairAnswers(st, lines, n);
    var i := 0;
    while i < |lines| - 1
      invariant 0 <= i <= Min(|lines| - 1, n)
      invariant answers == expected[..i]
    {
      if i >= n {
        break;
      }
      var circles := st.circlesIn(lines[i], lines[i + 1]);
      var a: Answer;
      if circles != [] && |circles| >= Alternatives {
        a := ScoreCircles(circles);
      } else {
        a := "";
      }
      assert a == expected[i];
      assert expected[..i + 1] == expected[..i] + [a];
      answers := answers + [a];
      i := i + 1;
    }
    assert expected[..i] == expected;
  }

  /** `_fallback_detection` as the steps of the source. */
  method FallbackDetection(st: Strips, n: nat) returns (answers: seq<Answer>)
    ensures answers == FallbackAnswers(st, n)
  {
    var lines := LongLines(st.lines, st.width);
    lines := Sort(lines, IntLe);
    if |lines| <= 1 {
      if n == 0 {
        // `height // 0` raises; the handler returns `[''] * 0`
        return [];
      }
      answers := ScoreSlices(st, n);
    } else {
      answers := ScorePairs(st, lines, n);
      answers := PadAnswers(answers, n);
      answers := Take(answers, n);
    }
  }

  // ---------------------------------------------------------------------
  // Choosing between strategies
  // ---------------------------------------------------------------------

  /** More than 70% of the `n` answers are blank (exact comparison). */
  predicate MostlyBlank(detected: seq<Answer>, n: nat) {
    10 * Blanks(detected) > 7 * n
  }

  /** The grid is tried when the bubbles left most answers blank and adopted
      when it has fewer blanks; then, on a G5 sheet, the template is adopted
      when it has fewer blanks still. */
  function Escalate(detected: seq<Answer>, grid: seq<Answer>, g5: seq<Answer>, n: nat, g5Sheet: bool): seq<Answer> {
    var afterGrid := if MostlyBlank(detected, n) && Blanks(grid) < Blanks(detected) then grid else detected;
    if g5Sheet && g5 != [] && Blanks(g5) < Blanks(afterGrid) then g5 else afterGrid
  }

  /** The escalation never adds a blank, and it replaces the bubble answers
      only by answers with strictly fewer blanks, taken from the grid or the
      template. */
  lemma EscalateImproves(detected: seq<Answer>, grid: seq<Answer>, g5: seq<Answer>, n: nat, g5Sheet: bool)
    ensures var r := Escalate(detected, grid, g5, n, g5Sheet);
            && Blanks(r) <= Blanks(detected)
            && (r != detected ==> Blanks(r) < Blanks(detected))
            && (r == detected || r == grid || r == g5)
  {
  }

  /** The grid matters only when more than 70% of the answers are blank. */
  lemma GridOnlyWhenMostlyBlank(detected: seq<Answer>, grid: seq<Answer>, other: seq<Answer>,
                                g5: seq<Answer>, n: nat, g5Sheet: bool)
    requires !MostlyBlank(detected, n)
    ensures Escalate(detected, grid, g5, n, g5Sheet) == Escalate(detected, other, g5, n, g5Sheet)
  {
  }

  /** The template matters only on a G5 sheet. */
  lemma TemplateOnlyOnG5Sheet(detected: seq<Answer>, grid: seq<Answer>, g5: seq<Answer>, other: seq<Answer>, n: nat)
    ensures Escalate(detected, grid, g5, n, false) == Escalate(detected, grid, other, n, false)
  {
  }

  /** A grid with fewer blanks is adopted when most answers are blank: off a
      G5 sheet it is the result, and on one it is replaced only by a template
      with fewer blanks still. */
  lemma GridAdopted(detected: seq<Answer>, grid: seq<Answer>, g5: seq<Answer>, n: nat, g5Sheet: bool)
    requires MostlyBlank(detected, n) && Blanks(grid) < Blanks(detected)
    ensures Escalate(detected, grid, g5, n, false) == grid
    ensures var r := Escalate(detected, grid, g5, n, g5Sheet);
            r == grid || (g5Sheet && g5 != [] && r == g5 && Blanks(g5) < Blanks(grid))
  {
  }

  /** `os.path.basename`: what follows the last `/`. */
  function Basename(path: string): (b: string)
    ensures |b| <= |path| && path[|path| - |b|..] == b
    ensures forall i :: 0 <= i < |b| ==> b[i] != '/'
    ensures |b| < |path| ==> path[|path| - |b| - 1] == '/'
  {
    if path == [] then []
    else if path[|path| - 1] == '/' then []
    else Basename(path[..|path| - 1]) + [path[|path| - 1]]
  }

  /** `re.search(r'g5\-(p|v)', s)`. */
  predicate MatchesG5(s: string) {
    exists i :: 0 <= i && i + 4 <= |s| && s[i] == 'g' && s[i + 1] == '5' && s[i + 2] == '-'
                && (s[i + 3] == 'p' || s[i + 3] == 'v')
  }

  /** The template applies to a non-empty path whose file name, in lower
      case, contains `g5-p` or `g5-v`, and only for five questions. */
  predicate IsG5Sheet(path: string, n: nat) {
    path != [] && MatchesG5(Lower(Basename(path))) && n == 5
  }

  /** Only the file name counts: the directories before it are ignored. */
  lemma {:induction false} BasenameOfPath(dir: string, name: string)
    requires forall i :: 0 <= i < |name| ==> name[i] != '/'
    ensures Basename(dir + "/" + name) == name
  {
    var p := dir + "/" + name;
    if name == [] {
      assert p[|p| - 1] == '/';
    } else {
      var init := name[..|name| - 1];
      assert p[..|p| - 1] == dir + "/" + init;
      BasenameOfPath(dir, init);
      assert name == init + [name[|name| - 1]];
    }
  }

  /** A file named `G5-P.jpg` in any directory is a G5 sheet of five questions. */
  lemma G5FileName(dir: string)
    ensures IsG5Sheet(dir + "/" + "G5-P.jpg", 5)
  {
    var name := "G5-P.jpg";
    assert forall i :: 0 <= i < |name| ==> name[i] != '/';
    BasenameOfPath(dir, name);
    var l := Lower(name);
    assert l[0] == LowerChar('G') == 'g';
    assert l[1] == LowerChar('5') == '5';
    assert l[2] == LowerChar('-') == '-';
    assert l[3] == LowerChar('P') == 'p';
  }

  // ---------------------------------------------------------------------
  // The whole reader
  // ---------------------------------------------------------------------

  /** What the reader measures on a loaded image: the contours of the
      thresholded image and their inks, the ink of that image, the ink of
      its resizing to 800 x 1100 used by the grid, and the fallback's data. */
  datatype Sheet = Sheet(contours: seq<Contour>, ink: Ink, gridInk: Ink, strips: Strips)

  /** `process_omr_image`: `None` is an image that could not be loaded,
      whose error the handler turns into `n` blanks. */
  function OmrResult(image: Option<Sheet>, path: string, n: nat): seq<Answer> {
    match image
    case None => NoAnswers(n)
    case Some(sheet) =>
      var bubbles := Filter(sheet.contours, IsAnswerBubble);
      if bubbles == [] then FallbackAnswers(sheet.strips, n)
      else
        var detected := PadTo(ContourAnswers(bubbles), n);
        Take(Escalate(detected, GridAnswers(sheet.gridInk, n), G5Answers(sheet.ink), n, IsG5Sheet(path, n)), n)
  }

  /** The reader always answers exactly `n` questions, each blank or A to E. */
  lemma OmrResultShape(image: Option<Sheet>, path: string, n: nat)
    ensures |OmrResult(image, path, n)| == n
    ensures AllAnswers(OmrResult(image, path, n))
  {
    match image
    case None =>
    case Some(sheet) =>
      var bubbles := Filter(sheet.contours, IsAnswerBubble);
      if bubbles == [] {
        FallbackAnswersSpec(sheet.strips, n);
      } else {
        var rows := OrderRows(Group(Sort(bubbles, ByY)));
        RowsAnswersSpec(rows);
        var detected := PadTo(ContourAnswers(bubbles), n);
        var grid := GridAnswers(sheet.gridInk, n);
        var g5 := G5Answers(sheet.ink);
        GridAnswersSpec(sheet.gridInk, n);
        G5AnswersSpec(sheet.ink);
        var r := Escalate(detected, grid, g5, n, IsG5Sheet(path, n));
        assert |r| >= n;
        assert AllAnswers(r);
        ResizeExact(r, n);
      }
  }

  /** The reader never reports more blanks than the bubble rows left, once
      those are padded to `n`. */
  lemma OmrResultNoWorseThanBubbles(sheet: Sheet, path: string, n: nat)
    requires Filter(sheet.contours, IsAnswerBubble) != []
    ensures var detected := PadTo(ContourAnswers(Filter(sheet.contours, IsAnswerBubble)), n);
            Blanks(OmrResult(Some(sheet), path, n)) <= Blanks(detected)
  {
    var bubbles := Filter(sheet.contours, IsAnswerBubble);
    var detected := PadTo(ContourAnswers(bubbles), n);
    var grid := GridAnswers(sheet.gridInk, n);
    var g5 := G5Answers(sheet.ink);
    var r := Escalate(detected, grid, g5, n, IsG5Sheet(path, n));
    EscalateImproves(detected, grid, g5, n, IsG5Sheet(path, n));
    TakeBlanks(r, n);
    assert OmrResult(Some(sheet), path, n) == Take(r, n);
  }

  /** Cutting a list never adds a blank. */
  lemma TakeBlanks(s: seq<Answer>, n: nat)
    ensures Blanks(Take(s, n)) <= Blanks(s)
  {
    if n < |s| {
      assert s == s[..n] + s[n..];
      BlanksAppend(s[..n], s[n..]);
    }
  }

  /** `process_omr_image` as the steps of the source. */
  method ProcessOmrImage(image: Option<Sheet>, path: string, n: nat) returns (answers: seq<Answer>)
    ensures answers == OmrResult(image, path, n)
    ensures |answers| == n && AllAnswers(answers)
  {
    OmrResultShape(image, path, n);
    if image.None? {
      // `cv2.imread` gave nothing: the ValueError is caught by the handler
      return NoAnswers(n);
    }
    var sheet := image.value;
    var bubbles := SelectBubbles(sheet.contours);
    if |bubbles| == 0 {
      answers := FallbackDetection(sheet.strips, n);
      return;
    }
    var sortedCnts := Sort(bubbles, ByY);
    var rows := GroupRows(sortedCnts);
    rows := OrderRows(rows);
    var detected := DetectRows(rows);
    detected := PadAnswers(detected, n);
    ghost var padded := detected;
    if MostlyBlank(detected, n) {
      var gridResults := TryGridApproach(sheet.gridInk, n);
      if Blanks(gridResults) < Blanks(detected) {
        detected := gridResults;
      }
    }
    if path != [] {
      var filename := Lower(Basename(path));
      if MatchesG5(filename) && n == 5 {
        var specific := ProcessSpecificG5(sheet.ink);
        if specific != [] && Blanks(specific) < Blanks(detected) {
          detected := specific;
        }
      }
    }
    assert detected == Escalate(padded, GridAnswers(sheet.gridInk, n), G5Answers(sheet.ink), n, IsG5Sheet(path, n));
    answers := Take(detected, n);
  }
}
