/** The two-column reading of a 20-question answer sheet in
    `analyze_real_image.py`: circles found on the image, resized to a width of
    1000 pixels, are split at the vertical midline into a left and a right
    column, each column is cut into 40-pixel row bands of five circles, each
    band yields a letter, the left column gives questions 1 to 10 and the
    right column questions 11 to 20, and the result is compared with the
    known answers of the sheet. */
module RealImage {
  import opened Base
  import opened Sorting
  import opened Answers
  import OmrProcessor

  /** An external contour of the Otsu-thresholded image: its bounding box,
      area, closed arc length and circularity `4*pi*area/perimeter^2`. */
  datatype Blob = Blob(x: int, y: int, w: nat, h: nat, area: real, perimeter: real, circularity: real)

  /** A circle kept for reading: the centre of its bounding box and its area. */
  datatype Mark = Mark(x: int, y: int, area: real)

  predicate IsAnswerCircle(b: Blob) {
    200.0 < b.area < 2000.0 && b.perimeter > 0.0 && b.circularity > 0.4
  }

  /** `(x + w // 2, y + h // 2, area)`. */
  function MarkOf(b: Blob): Mark {
    Mark(b.x + b.w / 2, b.y + b.h / 2, b.area)
  }

  function MarksOf(blobs: seq<Blob>): (ms: seq<Mark>)
    ensures |ms| == |blobs|
    ensures forall i :: 0 <= i < |blobs| ==> ms[i] == MarkOf(blobs[i])
  {
    seq(|blobs|, i requires 0 <= i < |blobs| => MarkOf(blobs[i]))
  }

  /** The circles of the sheet, in contour order. */
  function Circles(blobs: seq<Blob>): seq<Mark> {
    MarksOf(Filter(blobs, IsAnswerCircle))
  }

  /** A mark is read exactly for each contour passing the area, perimeter
      and circularity tests, placed at the centre of its bounding box. */
  lemma CirclesSpec(blobs: seq<Blob>, m: Mark)
    ensures m in Circles(blobs) <==> exists b :: b in blobs && IsAnswerCircle(b) && m == MarkOf(b)
  {
    var kept := Filter(blobs, IsAnswerCircle);
    if m in Circles(blobs) {
      var i :| 0 <= i < |kept| && Circles(blobs)[i] == m;
      FilterMembers(blobs, IsAnswerCircle, kept[i]);
    }
    if exists b :: b in blobs && IsAnswerCircle(b) && m == MarkOf(b) {
      var b :| b in blobs && IsAnswerCircle(b) && m == MarkOf(b);
      FilterMembers(blobs, IsAnswerCircle, b);
      var i :| 0 <= i < |kept| && kept[i] == b;
      assert Circles(blobs)[i] == m;
    }
  }

  /** The loop that collects the circles. */
  method FindCircles(blobs: seq<Blob>) returns (circles: seq<Mark>)
    ensures circles == Circles(blobs)
  {
    circles := [];
    var i := 0;
    while i < |blobs|
      invariant 0 <= i <= |blobs|
      invariant circles == Circles(blobs[..i])
    {
      var b := blobs[i];
      assert blobs[..i + 1] == blobs[..i] + [b];
      FilterAppend(blobs[..i], [b], IsAnswerCircle);
      assert [b][1..] == [];
      if IsAnswerCircle(b) {
        circles := circles + [MarkOf(b)];
      }
      i := i + 1;
    }
    assert blobs[..i] == blobs;
  }

  // ---------------------------------------------------------------------
  // The column split
  // ---------------------------------------------------------------------

  const ResizedWidth := 1000
  const MidX := ResizedWidth / 2

  predicate ByMarkX(a: Mark, b: Mark) {
    a.x <= b.x
  }

  predicate IsLeft(m: Mark) {
    m.x < MidX
  }

  predicate IsRight(m: Mark) {
    m.x >= MidX
  }

  /** `circles.sort(key=x)` and then the circles left of the midline. */
  function LeftColumn(circles: seq<Mark>): seq<Mark> {
    Filter(Sort(circles, ByMarkX), IsLeft)
  }

  function RightColumn(circles: seq<Mark>): seq<Mark> {
    Filter(Sort(circles, ByMarkX), IsRight)
  }

  /** The split is a partition of the circles, at `x < 500`, and both
      columns stay ordered by `x`. */
  lemma ColumnSplitPartitions(circles: seq<Mark>)
    ensures multiset(LeftColumn(circles)) + multiset(RightColumn(circles)) == multiset(circles)
    ensures forall m :: m in LeftColumn(circles) <==> m in circles && m.x < MidX
    ensures forall m :: m in RightColumn(circles) <==> m in circles && m.x >= MidX
    ensures SortedBy(LeftColumn(circles), ByMarkX) && SortedBy(RightColumn(circles), ByMarkX)
  {
    var sorted := Sort(circles, ByMarkX);
    SortPermutes(circles, ByMarkX);
    FilterSplits(sorted, IsLeft, IsRight);
    forall m ensures m in LeftColumn(circles) <==> m in circles && m.x < MidX
      ensures m in RightColumn(circles) <==> m in circles && m.x >= MidX
    {
      ColumnMembers(circles, m);
    }
    ColumnsSorted(circles);
  }

  lemma ColumnMembers(circles: seq<Mark>, m: Mark)
    ensures m in LeftColumn(circles) <==> m in circles && m.x < MidX
    ensures m in RightColumn(circles) <==> m in circles && m.x >= MidX
  {
    var sorted := Sort(circles, ByMarkX);
    SortPermutes(circles, ByMarkX);
    FilterMembers(sorted, IsLeft, m);
    FilterMembers(sorted, IsRight, m);
    assert m in sorted <==> m in multiset(sorted);
    assert m in circles <==> m in multiset(circles);
  }

  lemma ColumnsSorted(circles: seq<Mark>)
    ensures SortedBy(LeftColumn(circles), ByMarkX) && SortedBy(RightColumn(circles), ByMarkX)
  {
    var sorted := Sort(circles, ByMarkX);
    assert TotalPreorder(ByMarkX);
    SortSorted(circles, ByMarkX);
    FilterSorted(sorted, IsLeft, ByMarkX);
    FilterSorted(sorted, IsRight, ByMarkX);
  }

  // ---------------------------------------------------------------------
  // Rows of one column
  // ---------------------------------------------------------------------

  const RowBand := 40
  const RowSize := 5
  const MaxColumnRows := 10

  /** `y // 40 * 40`. */
  function RowKey(m: Mark): int {
    m.y / RowBand * RowBand
  }

  function InRow(k: int): Mark -> bool {
    m => RowKey(m) == k
  }

  /** The circles of a column in band `k`, in column order. */
  function Bucket(column: seq<Mark>, k: int): seq<Mark> {
    Filter(column, InRow(k))
  }

  /** The dictionary built by the bucketing loop. */
  function Buckets(column: seq<Mark>): map<int, seq<Mark>> {
    if column == [] then map[]
    else
      var rows := Buckets(column[..|column| - 1]);
      var m := column[|column| - 1];
      var k := RowKey(m);
      rows[k := (if k in rows then rows[k] else []) + [m]]
  }

  /** The dictionary's keys in insertion order. */
  function FirstSeenKeys(column: seq<Mark>): seq<int> {
    if column == [] then []
    else
      var keys := FirstSeenKeys(column[..|column| - 1]);
      var k := RowKey(column[|column| - 1]);
      if k in keys then keys else keys + [k]
  }

  /** Each band of the dictionary holds exactly the circles of that band, in
      column order; its keys are the bands met, each once. */
  lemma BucketsSpec(column: seq<Mark>)
    ensures forall k :: k in Buckets(column) <==> k in FirstSeenKeys(column)
    ensures forall k :: k in FirstSeenKeys(column) <==> exists i :: 0 <= i < |column| && RowKey(column[i]) == k
    ensures forall k :: k in Buckets(column) ==> Buckets(column)[k] == Bucket(column, k)
    ensures Distinct(FirstSeenKeys(column))
  {
    BucketsKeys(column);
    FirstSeenMembers(column);
    BucketsContents(column);
    FirstSeenDistinct(column);
  }

  lemma {:induction false} BucketsKeys(column: seq<Mark>)
    ensures forall k :: k in Buckets(column) <==> k in FirstSeenKeys(column)
  {
    if column != [] {
      BucketsKeys(column[..|column| - 1]);
    }
  }

  lemma {:induction false} FirstSeenMembers(column: seq<Mark>)
    ensures forall k :: k in FirstSeenKeys(column) <==> exists i :: 0 <= i < |column| && RowKey(column[i]) == k
  {
    if column != [] {
      var init := column[..|column| - 1];
      FirstSeenMembers(init);
      forall k ensures k in FirstSeenKeys(column) <==> exists i :: 0 <= i < |column| && RowKey(column[i]) == k {
        if exists i :: 0 <= i < |column| && RowKey(column[i]) == k {
          var i :| 0 <= i < |column| && RowKey(column[i]) == k;
          if i < |init| {
            assert init[i] == column[i];
          }
        }
        if k in FirstSeenKeys(init) {
          var i :| 0 <= i < |init| && RowKey(init[i]) == k;
          assert column[i] == init[i];
        }
      }
    }
  }

  lemma {:induction false} BucketsContents(column: seq<Mark>)
    ensures forall k :: k in Buckets(column) ==> Buckets(column)[k] == Bucket(column, k)
  {
    if column != [] {
      var init := column[..|column| - 1];
      var m := column[|column| - 1];
      BucketsContents(init);
      BucketsKeys(init);
      FirstSeenMembers(init);
      assert column == init + [m];
      forall k | k in Buckets(column) ensures Buckets(column)[k] == Bucket(column, k) {
        FilterAppend(init, [m], InRow(k));
        assert [m][1..] == [];
        assert Bucket(column, k) == Bucket(init, k) + (if RowKey(m) == k then [m] else []);
        if k !in Buckets(init) {
          assert forall i :: 0 <= i < |init| ==> !InRow(k)(init[i]);
          FilterNone(init, InRow(k));
        }
      }
    }
  }

  lemma {:induction false} FirstSeenDistinct(column: seq<Mark>)
    ensures Distinct(FirstSeenKeys(column))
  {
    if column != [] {
      var init := column[..|column| - 1];
      FirstSeenDistinct(init);
      var keys := FirstSeenKeys(init);
      var k := RowKey(column[|column| - 1]);
      if k !in keys {
        var r := keys + [k];
        forall i, j | 0 <= i < j < |r| ensures r[i] != r[j] {
          if j == |keys| {
            assert r[i] == keys[i];
          } else {
            assert r[i] == keys[i] && r[j] == keys[j];
          }
        }
      }
    }
  }

  /** `len(row_circles) >= 5`. */
  predicate IsFullBand(rows: map<int, seq<Mark>>, k: int) {
    k in rows && |rows[k]| >= RowSize
  }

  function FullBand(rows: map<int, seq<Mark>>): int -> bool {
    k => IsFullBand(rows, k)
  }

  /** `organize_by_rows`: the bands in ascending order, each sorted by `x`,
      the full ones cut to their first five circles, at most ten of them. */
  function Organize(column: seq<Mark>): (r: seq<seq<Mark>>)
    ensures |r| <= MaxColumnRows
  {
    var kept := KeptRows(Buckets(column), Sort(FirstSeenKeys(column), IntLe));
    if |kept| <= MaxColumnRows then kept else kept[..MaxColumnRows]
  }

  /** The full bands among `keys`, in that order, each sorted by `x` and cut
      to its first five circles. */
  function KeptRows(rows: map<int, seq<Mark>>, keys: seq<int>): seq<seq<Mark>> {
    var full := Filter(keys, FullBand(rows));
    seq(|full|, i requires 0 <= i < |full| =>
      FullBandMember(rows, keys, i);
      Sort(rows[full[i]], ByMarkX)[..RowSize])
  }

  predicate IntLt(a: int, b: int) {
    a < b
  }

  lemma FullBandMember(rows: map<int, seq<Mark>>, keys: seq<int>, i: int)
    requires 0 <= i < |Filter(keys, FullBand(rows))|
    ensures IsFullBand(rows, Filter(keys, FullBand(rows))[i])
  {
    FilterMembers(keys, FullBand(rows), Filter(keys, FullBand(rows))[i]);
  }

  /** The full bands of a column, in ascending order. */
  function FullKeys(column: seq<Mark>): seq<int> {
    Filter(Sort(FirstSeenKeys(column), IntLe), FullBand(Buckets(column)))
  }

  /** The bands that `organize_by_rows` keeps are strictly increasing and are
      exactly the bands holding five circles or more. */
  lemma FullKeysSpec(column: seq<Mark>)
    ensures SortedBy(FullKeys(column), IntLt)
    ensures forall k :: k in FullKeys(column) <==> |Bucket(column, k)| >= RowSize
  {
    var keys := FirstSeenKeys(column);
    var rows := Buckets(column);
    BucketsSpec(column);
    assert TotalPreorder(IntLe);
    SortSorted(keys, IntLe);
    SortDistinct(keys, IntLe);
    SortPermutes(keys, IntLe);
    var sorted := Sort(keys, IntLe);
    assert SortedBy(sorted, IntLt) by {
      forall i, j | 0 <= i < j < |sorted| ensures sorted[i] < sorted[j] {
        assert IntLe(sorted[i], sorted[j]) && sorted[i] != sorted[j];
      }
    }
    FilterSorted(sorted, FullBand(rows), IntLt);
    forall k ensures k in FullKeys(column) <==> |Bucket(column, k)| >= RowSize {
      FilterMembers(sorted, FullBand(rows), k);
      assert k in sorted <==> k in multiset(sorted);
      if |Bucket(column, k)| >= RowSize {
        var m := Bucket(column, k)[0];
        FilterMembers(column, InRow(k), m);
        var i :| 0 <= i < |column| && column[i] == m;
        assert RowKey(column[i]) == k;
      }
    }
  }

  /** The rows of a column: at most ten, in ascending band order, each made
      of the five leftmost circles of a band that has at least five, all
      circles of a row sharing that band. */
  lemma OrganizeSpec(column: seq<Mark>)
    ensures |Organize(column)| == Min(|FullKeys(column)|, MaxColumnRows)
    ensures forall i :: 0 <= i < |Organize(column)| ==>
              |Bucket(column, FullKeys(column)[i])| >= RowSize
              && Organize(column)[i] == Sort(Bucket(column, FullKeys(column)[i]), ByMarkX)[..RowSize]
    ensures forall i :: 0 <= i < |Organize(column)| ==>
              |Organize(column)[i]| == RowSize
              && SortedBy(Organize(column)[i], ByMarkX)
              && forall j :: 0 <= j < RowSize ==> Organize(column)[i][j] in column
                                                   && RowKey(Organize(column)[i][j]) == FullKeys(column)[i]
  {
    var rows := Buckets(column);
    var keys := FullKeys(column);
    var r := Organize(column);
    BucketsSpec(column);
    forall i | 0 <= i < |r|
      ensures |Bucket(column, keys[i])| >= RowSize
      ensures r[i] == Sort(Bucket(column, keys[i]), ByMarkX)[..RowSize]
      ensures |r[i]| == RowSize && SortedBy(r[i], ByMarkX)
      ensures forall j :: 0 <= j < RowSize ==> r[i][j] in column && RowKey(r[i][j]) == keys[i]
    {
      FullBandMember(rows, Sort(FirstSeenKeys(column), IntLe), i);
      var bucket := Bucket(column, keys[i]);
      assert rows[keys[i]] == bucket;
      var sorted := Sort(bucket, ByMarkX);
      assert TotalPreorder(ByMarkX);
      SortSorted(bucket, ByMarkX);
      SortPermutes(bucket, ByMarkX);
      forall j | 0 <= j < RowSize ensures r[i][j] in column && RowKey(r[i][j]) == keys[i] {
        assert r[i][j] == sorted[j];
        assert sorted[j] in multiset(bucket);
        FilterMembers(column, InRow(keys[i]), sorted[j]);
      }
    }
  }

  /** `organize_by_rows` as the loops of the source. */
  method OrganizeByRows(column: seq<Mark>) returns (organized: seq<seq<Mark>>)
    ensures organized == Organize(column)
  {
    var rows, keys := BucketColumn(column);
    var sortedKeys := Sort(keys, IntLe);
    BucketsSpec(column);
    SortPermutes(keys, IntLe);
    forall j | 0 <= j < |sortedKeys| ensures sortedKeys[j] in rows {
      assert sortedKeys[j] in multiset(keys);
    }
    organized := KeepFullRows(rows, sortedKeys);
    if |organized| > MaxColumnRows {
      organized := organized[..MaxColumnRows];
    }
  }

  /** The bucketing loop: `rows.setdefault(row_key, []).append(c)`. */
  method BucketColumn(column: seq<Mark>) returns (rows: map<int, seq<Mark>>, keys: seq<int>)
    ensures rows == Buckets(column) && keys == FirstSeenKeys(column)
  {
    rows := map[];
    keys := [];
    var i := 0;
    while i < |column|
      invariant 0 <= i <= |column|
      invariant rows == Buckets(column[..i])
      invariant keys == FirstSeenKeys(column[..i])
    {
      assert column[..i + 1][..i] == column[..i];
      var m := column[i];
      var rowKey := RowKey(m);
      BucketsSpec(column[..i]);
      if rowKey !in rows {
        keys := keys + [rowKey];
        rows := rows[rowKey := []];
      }
      rows := rows[rowKey := rows[rowKey] + [m]];
      i := i + 1;
    }
    assert column[..i] == column;
  }

  /** Keeping one more band extends the kept rows by it when it is full. */
  lemma KeptRowsSnoc(rows: map<int, seq<Mark>>, keys: seq<int>, j: nat)
    requires j < |keys|
    ensures KeptRows(rows, keys[..j + 1])
         == KeptRows(rows, keys[..j])
            + (if IsFullBand(rows, keys[j]) then [Sort(rows[keys[j]], ByMarkX)[..RowSize]] else [])
  {
    LeadingFilter(keys, FullBand(rows), j);
    var before := Filter(keys[..j], FullBand(rows));
    var after := Filter(keys[..j + 1], FullBand(rows));
    var a := KeptRows(rows, keys[..j]);
    var b := KeptRows(rows, keys[..j + 1]);
    assert |b| == |after|;
    forall t | 0 <= t < |before| ensures b[t] == a[t] {
      assert after[t] == before[t];
    }
  }

  /** The loop over the sorted bands that keeps the full ones. */
  method KeepFullRows(rows: map<int, seq<Mark>>, keys: seq<int>) returns (organized: seq<seq<Mark>>)
    requires forall j :: 0 <= j < |keys| ==> keys[j] in rows
    ensures organized == KeptRows(rows, keys)
  {
    organized := [];
    var j := 0;
    while j < |keys|
      invariant 0 <= j <= |keys|
      invariant organized == KeptRows(rows, keys[..j])
    {
      KeptRowsSnoc(rows, keys, j);
      var rowY := keys[j];
      var rowCircles := Sort(rows[rowY], ByMarkX);
      if |rowCircles| >= RowSize {
        organized := organized + [rowCircles[..RowSize]];
      }
      j := j + 1;
    }
    assert keys[..j] == keys;
  }

  /** Filtering one more element of `s` either keeps the filtered prefix or
      extends it by that element. */
  lemma LeadingFilter<T>(s: seq<T>, p: T -> bool, j: nat)
    requires j < |s|
    ensures Filter(s[..j + 1], p) == Filter(s[..j], p) + (if p(s[j]) then [s[j]] else [])
    ensures |Filter(s[..j + 1], p)| <= |Filter(s, p)|
    ensures Filter(s[..j + 1], p) == Filter(s, p)[..|Filter(s[..j + 1], p)|]
  {
    assert s[..j + 1] == s[..j] + [s[j]];
    FilterAppend(s[..j], [s[j]], p);
    assert [s[j]][1..] == [];
    assert s == s[..j + 1] + s[j + 1..];
    FilterAppend(s[..j + 1], s[j + 1..], p);
  }

  // ---------------------------------------------------------------------
  // Reading the rows and assembling the sheet
  // ---------------------------------------------------------------------

  const MarkRadius := 20
  const ColumnFloor: nat := 100

  function MarkFills(ink: OmrProcessor.Ink, row: seq<Mark>): (f: seq<nat>)
    ensures |f| == |row|
    ensures forall j :: 0 <= j < |row| ==> f[j] == ink(row[j].x, row[j].y, MarkRadius)
  {
    seq(|row|, j requires 0 <= j < |row| => ink(row[j].x, row[j].y, MarkRadius))
  }

  predicate RowsFit(rows: seq<seq<Mark>>) {
    forall i :: 0 <= i < |rows| ==> |rows[i]| <= Alternatives
  }

  /** `analyze_column`: one answer per row, the leftmost circle with the most
      ink if that ink exceeds 100 pixels. */
  function ColumnAnswers(ink: OmrProcessor.Ink, rows: seq<seq<Mark>>): (r: seq<Answer>)
    requires RowsFit(rows)
    ensures |r| == |rows|
    ensures forall i :: 0 <= i < |rows| ==> r[i] == Pick(MarkFills(ink, rows[i]), ColumnFloor)
  {
    seq(|rows|, i requires 0 <= i < |rows| => Pick(MarkFills(ink, rows[i]), ColumnFloor))
  }

  /** Each row's answer is valid, a letter exactly when some circle has more
      than 100 pixels of ink, and then the leftmost circle with the most ink. */
  lemma ColumnAnswersSpec(ink: OmrProcessor.Ink, rows: seq<seq<Mark>>, i: nat)
    requires RowsFit(rows) && i < |rows|
    ensures |ColumnAnswers(ink, rows)| == |rows|
    ensures forall j :: 0 <= j < |rows[i]| ==>
              MarkFills(ink, rows[i])[j] == ink(rows[i][j].x, rows[i][j].y, MarkRadius)
    ensures IsAnswer(ColumnAnswers(ink, rows)[i])
    ensures ColumnAnswers(ink, rows)[i] != "" <==> exists j :: 0 <= j < |rows[i]| && MarkFills(ink, rows[i])[j] > ColumnFloor
    ensures ColumnAnswers(ink, rows)[i] != "" ==>
              var f := MarkFills(ink, rows[i]);
              var k := ArgMax(f);
              0 <= k && ColumnAnswers(ink, rows)[i] == Letter(k)
              && (forall j :: 0 <= j < |f| ==> f[j] <= f[k])
              && (forall j :: 0 <= j < k ==> f[j] < f[k])
  {
    var f := MarkFills(ink, rows[i]);
    PickSpec(f, ColumnFloor);
    ArgMaxIsLeftmostMaximum(f);
  }

  /** `analyze_column` as the loops of the source. */
  method AnalyzeColumn(ink: OmrProcessor.Ink, rows: seq<seq<Mark>>) returns (results: seq<Answer>)
    requires RowsFit(rows)
    ensures results == ColumnAnswers(ink, rows)
  {
    results := [];
    var r := 0;
    while r < |rows|
      invariant 0 <= r <= |rows|
      invariant results == ColumnAnswers(ink, rows)[..r]
    {
      var fills: seq<nat> := [];
      var j := 0;
      while j < |rows[r]|
        invariant 0 <= j <= |rows[r]|
        invariant fills == MarkFills(ink, rows[r])[..j]
      {
        fills := fills + [ink(rows[r][j].x, rows[r][j].y, MarkRadius)];
        j := j + 1;
      }
      assert fills == MarkFills(ink, rows[r]);
      var a := PickLetter(fills, ColumnFloor);
      results := results + [a];
      r := r + 1;
    }
  }

  const SheetQuestions := 20

  /** Left answers, then right answers, padded and cut to 20. */
  function Assemble(left: seq<Answer>, right: seq<Answer>): seq<Answer> {
    Take(PadTo(left + right, SheetQuestions), SheetQuestions)
  }

  /** The sheet has 20 answers: the left column's first, then the right
      column's, then blanks. */
  lemma AssembleSpec(left: seq<Answer>, right: seq<Answer>)
    ensures |Assemble(left, right)| == SheetQuestions
    ensures forall i :: 0 <= i < SheetQuestions ==>
              Assemble(left, right)[i] ==
                if i < |left| then left[i]
                else if i - |left| < |right| then right[i - |left|]
                else ""
    ensures AllAnswers(left) && AllAnswers(right) ==> AllAnswers(Assemble(left, right))
  {
    ResizeExact(left + right, SheetQuestions);
  }

  /** With ten rows read on the left, the right column answers questions 11
      to 20. */
  lemma RightColumnStartsAtEleven(left: seq<Answer>, right: seq<Answer>, q: nat)
    requires |left| == MaxColumnRows && q < |right| && q < MaxColumnRows
    ensures Assemble(left, right)[MaxColumnRows + q] == right[q]
  {
    AssembleSpec(left, right);
  }

  /** The answers read from a sheet. */
  function SheetAnswers(blobs: seq<Blob>, ink: OmrProcessor.Ink): seq<Answer> {
    var circles := Circles(blobs);
    var leftRows := Organize(LeftColumn(circles));
    var rightRows := Organize(RightColumn(circles));
    OrganizeSpec(LeftColumn(circles));
    OrganizeSpec(RightColumn(circles));
    Assemble(ColumnAnswers(ink, leftRows), ColumnAnswers(ink, rightRows))
  }

  /** A sheet gives 20 valid answers; the left column's rows answer the first
      questions in order, and the right column's rows follow them. */
  lemma SheetAnswersSpec(blobs: seq<Blob>, ink: OmrProcessor.Ink)
    ensures |SheetAnswers(blobs, ink)| == SheetQuestions
    ensures AllAnswers(SheetAnswers(blobs, ink))
    ensures var leftRows := Organize(LeftColumn(Circles(blobs)));
            var rightRows := Organize(RightColumn(Circles(blobs)));
            && RowsFit(leftRows) && RowsFit(rightRows)
            && (forall q :: 0 <= q < |leftRows| ==>
                  SheetAnswers(blobs, ink)[q] == ColumnAnswers(ink, leftRows)[q])
            && (forall q :: 0 <= q < |rightRows| ==>
                  SheetAnswers(blobs, ink)[|leftRows| + q] == ColumnAnswers(ink, rightRows)[q])
  {
    var circles := Circles(blobs);
    var leftRows := Organize(LeftColumn(circles));
    var rightRows := Organize(RightColumn(circles));
    OrganizeSpec(LeftColumn(circles));
    OrganizeSpec(RightColumn(circles));
    var left := ColumnAnswers(ink, leftRows);
    var right := ColumnAnswers(ink, rightRows);
    forall i | 0 <= i < |left| ensures IsAnswer(left[i]) {
      ColumnAnswersSpec(ink, leftRows, i);
    }
    forall i | 0 <= i < |right| ensures IsAnswer(right[i]) {
      ColumnAnswersSpec(ink, rightRows, i);
    }
    AssembleSpec(left, right);
  }

  // ---------------------------------------------------------------------
  // Accuracy against the known answers
  // ---------------------------------------------------------------------

  const Expected: seq<Answer> := [
    "C", "C", "A", "E", "D", "A", "A", "B", "D", "E",
    "D", "C", "E", "B", "A", "C", "D", "C", "A", "E"]

  /** Agreeing positions of two lists of the same length. */
  function Agreements(d: seq<Answer>, e: seq<Answer>): nat
    requires |d| == |e|
  {
    if d == [] then 0
    else Agreements(d[..|d| - 1], e[..|e| - 1]) + (if d[|d| - 1] == e[|e| - 1] then 1 else 0)
  }

  /** The count over `zip(detected, expected)`, which stops at the shorter. */
  function Correct(d: seq<Answer>, e: seq<Answer>): nat {
    var m := Min(|d|, |e|);
    Agreements(d[..m], e[..m])
  }

  /** The count is at most the compared length, and reaches it exactly when
      every compared position agrees. */
  lemma {:induction false} AgreementsSpec(d: seq<Answer>, e: seq<Answer>)
    requires |d| == |e|
    ensures Agreements(d, e) <= |d|
    ensures Agreements(d, e) == |d| <==> forall i :: 0 <= i < |d| ==> d[i] == e[i]
    ensures Agreements(d, e) == 0 <==> forall i :: 0 <= i < |d| ==> d[i] != e[i]
  {
    if d != [] {
      var d', e' := d[..|d| - 1], e[..|e| - 1];
      AgreementsSpec(d', e');
      assert forall i :: 0 <= i < |d'| ==> d'[i] == d[i] && e'[i] == e[i];
    }
  }

  /** Agreement counts one per agreeing position: changing one position to
      agree with the key adds exactly one. */
  lemma {:induction false} AgreementsFix(d: seq<Answer>, e: seq<Answer>, i: nat)
    requires |d| == |e| && i < |d| && d[i] != e[i]
    ensures Agreements(d[i := e[i]], e) == Agreements(d, e) + 1
  {
    var n := |d| - 1;
    if i == n {
      assert d[i := e[i]][..n] == d[..n];
    } else {
      AgreementsFix(d[..n], e[..n], i);
      assert d[i := e[i]][..n] == d[..n][i := e[i]];
    }
  }

  /** `correct / 20 * 100`. */
  function Accuracy(correct: nat): real {
    correct as real / SheetQuestions as real * 100.0
  }

  lemma AccuracyBounds(d: seq<Answer>)
    requires |d| == SheetQuestions
    ensures Correct(d, Expected) <= SheetQuestions
    ensures 0.0 <= Accuracy(Correct(d, Expected)) <= 100.0
    ensures Accuracy(Correct(d, Expected)) == 100.0 <==> d == Expected
  {
    assert d[..20] == d && Expected[..20] == Expected;
    AgreementsSpec(d, Expected);
  }

  /** The counting loop. */
  method CountCorrect(detected: seq<Answer>, expected: seq<Answer>) returns (correct: nat)
    ensures correct == Correct(detected, expected)
  {
    var m := Min(|detected|, |expected|);
    correct := 0;
    var i := 0;
    while i < m
      invariant 0 <= i <= m
      invariant correct == Agreements(detected[..i], expected[..i])
    {
      assert detected[..i + 1][..i] == detected[..i];
      assert expected[..i + 1][..i] == expected[..i];
      if detected[i] == expected[i] {
        correct := correct + 1;
      }
      i := i + 1;
    }
  }

  /** `analyze_real_image` from the contours found onwards. */
  method AnalyzeRealImage(blobs: seq<Blob>, ink: OmrProcessor.Ink) returns (results: seq<Answer>, correct: nat)
    ensures results == SheetAnswers(blobs, ink)
    ensures |results| == SheetQuestions && AllAnswers(results)
    ensures correct == Correct(results, Expected) && correct <= SheetQuestions
  {
    var circles := FindCircles(blobs);
    var left := LeftColumn(circles);
    var right := RightColumn(circles);
    var leftRows := OrganizeByRows(left);
    var rightRows := OrganizeByRows(right);
    OrganizeSpec(left);
    OrganizeSpec(right);
    var leftResults := AnalyzeColumn(ink, leftRows);
    var rightResults := AnalyzeColumn(ink, rightRows);
    forall i | 0 <= i < |leftResults| ensures IsAnswer(leftResults[i]) {
      ColumnAnswersSpec(ink, leftRows, i);
    }
    forall i | 0 <= i < |rightResults| ensures IsAnswer(rightResults[i]) {
      ColumnAnswersSpec(ink, rightRows, i);
    }
    var all := leftResults + rightResults;
    all := PadAnswers(all, SheetQuestions);
    results := Take(all, SheetQuestions);
    AssembleSpec(leftResults, rightResults);
    correct := CountCorrect(results, Expected);
    AccuracyBounds(results);
  }
}
