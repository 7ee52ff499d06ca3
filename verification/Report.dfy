/** The gateway report: buckets selected by the query and by retention, grouped into rows of the query's width. */
module Report {
  import opened Sums
  import opened Wrappers
  import opened Ordering
  import opened Allocation
  import opened Calendar
  import opened Database
  import opened Conservation
  import opened Coverage

  /** The width in seconds of rows of 1, 4 or 96 buckets. */
  function Width(buckets: nat): int { buckets * BUCKET }

  datatype CoverageLabel = Missing | Estimated | Complete | Partial

  datatype ReportRow = ReportRow(start: int, counts: Row, missing: int, quality: CoverageLabel)

  /** A positive range of at most 96 days whose ends fall on row boundaries of the given zone. */
  predicate QueryValid(start: int, end: int, width: int, offset: int)
    requires width > 0
  {
    start < end && end - start <= 96 * DAY && (start + offset) % width == 0 && (end + offset) % width == 0
  }

  /** Rows the query selects, within retention and before now. */
  function Selected(t: map<int, Row>, start: int, end: int, now: nat): map<int, Row> {
    map s | s in t && Max(start, Cutoff(now)) <= s < Min(end, now) :: t[s]
  }

  /** A bucket is reported when it lies in the range, is not older than retention, and has begun. */
  lemma SelectedWhen(t: map<int, Row>, start: int, end: int, now: nat, s: int)
    ensures s in Selected(t, start, end, now) <==> s in t && start <= s < end && Cutoff(now) <= s < now
    ensures s in Selected(t, start, end, now) ==> Selected(t, start, end, now)[s] == t[s]
  {
  }

  predicate Aligned(t: map<int, Row>) {
    forall s :: s in t ==> s % BUCKET == 0
  }

  function Combined(a: Row, b: Row): Row {
    Row(Bytes(a.bytes.up + b.bytes.up, a.bytes.down + b.bytes.down),
        a.observed + b.observed, a.estimated + b.estimated, a.resets + b.resets)
  }

  /** All that is stored in a number of consecutive buckets. */
  function RowsIn(t: map<int, Row>, at: int, buckets: nat): Row {
    if buckets == 0 then Row(Bytes(0, 0), 0, 0, 0)
    else Combined(RowsIn(t, at, buckets - 1), RowAt(t, at + (buckets - 1) * BUCKET))
  }

  function Label(observed: int, estimated: int, width: int): CoverageLabel {
    if observed + estimated == 0 then Missing
    else if estimated != 0 then Estimated
    else if observed == width then Complete
    else Partial
  }

  // ---- grouping ----

  /** The row a bucket belongs to. */
  function GroupOf(start: int, width: int, offset: int): int
    requires width > 0
  {
    (start + offset) / width * width - offset
  }

  /** The start of a row of a zone. */
  predicate Boundary(at: int, width: int, offset: int)
    requires width > 0
  {
    (at + offset) % width == 0
  }

  lemma {:induction false} RowsInAdded(t: map<int, Row>, k: int, row: Row, at: int, buckets: nat)
    requires k !in t && k % BUCKET == 0 && at % BUCKET == 0
    ensures RowsIn(t[k := row], at, buckets) ==
              if at <= k < at + buckets * BUCKET then Combined(RowsIn(t, at, buckets), row) else RowsIn(t, at, buckets)
  {
    if buckets > 0 {
      RowsInAdded(t, k, row, at, buckets - 1);
      LastBucket(k, at, buckets);
    }
  }

  lemma LastBucket(k: int, at: int, buckets: nat)
    requires k % BUCKET == 0 && at % BUCKET == 0 && buckets > 0
    ensures at <= k < at + buckets * BUCKET <==>
              at <= k < at + (buckets - 1) * BUCKET || k == at + (buckets - 1) * BUCKET
  {
  }

  /** A bucket belongs to the row whose width covers it. */
  lemma GroupCovers(k: int, at: int, width: int, offset: int)
    requires width > 0 && Boundary(at, width, offset)
    ensures GroupOf(k, width, offset) == at <==> at <= k < at + width
  {
    var q, r := (k + offset) / width, (k + offset) % width;
    var p := (at + offset) / width;
    if at <= k < at + width {
      DivUnique(k + offset, width, p, k - at);
    }
  }

  lemma RowsStartInBuckets(at: int, buckets: nat, offset: int)
    requires buckets > 0 && offset % BUCKET == 0 && Boundary(at, Width(buckets), offset)
    ensures at % BUCKET == 0
  {
    var q := (at + offset) / Width(buckets);
    assert at + offset == q * buckets * BUCKET;
    DivUnique(at + offset, BUCKET, q * buckets, 0);
  }

  ghost predicate Grouped(groups: map<int, Row>, t: map<int, Row>, buckets: nat, offset: int)
    requires buckets > 0
  {
    forall at :: Boundary(at, Width(buckets), offset) ==> RowAt(groups, at) == RowsIn(t, at, buckets)
  }

  lemma GroupedAdds(groups: map<int, Row>, t: map<int, Row>, buckets: nat, offset: int, k: int, row: Row)
    requires buckets > 0 && Grouped(groups, t, buckets, offset) && offset % BUCKET == 0 && k !in t && k % BUCKET == 0
    ensures Grouped(AddRow(groups, GroupOf(k, Width(buckets), offset), row), t[k := row], buckets, offset)
  {
    var group := GroupOf(k, Width(buckets), offset);
    forall at | Boundary(at, Width(buckets), offset)
      ensures RowAt(AddRow(groups, group, row), at) == RowsIn(t[k := row], at, buckets)
    {
      RowsStartInBuckets(at, buckets, offset);
      GroupCovers(k, at, Width(buckets), offset);
      GroupAdds(groups, t, buckets, k, row, at, group);
    }
  }

  lemma GroupAdds(groups: map<int, Row>, t: map<int, Row>, buckets: nat, k: int, row: Row, at: int, group: int)
    requires RowAt(groups, at) == RowsIn(t, at, buckets) && k !in t && k % BUCKET == 0 && at % BUCKET == 0
    requires group == at <==> at <= k < at + Width(buckets)
    ensures RowAt(AddRow(groups, group, row), at) == RowsIn(t[k := row], at, buckets)
  {
    RowsInAdded(t, k, row, at, buckets);
    RowAtAdded(groups, group, row, at);
  }

  lemma RowAtAdded(groups: map<int, Row>, group: int, row: Row, at: int)
    ensures RowAt(AddRow(groups, group, row), at) ==
              if group == at then Combined(RowAt(groups, at), row) else RowAt(groups, at)
  {
  }

  lemma {:induction false} NothingIn(at: int, buckets: nat)
    ensures RowsIn(map[], at, buckets) == Row(Bytes(0, 0), 0, 0, 0)
  {
    if buckets > 0 {
      NothingIn(at, buckets - 1);
    }
  }

  predicate Before(a: int, b: int) { a <= b }

  /** The dictionary of groups holds for every row boundary what is stored in the buckets of that row. */
  method Aggregate(t: map<int, Row>, buckets: nat, offset: int) returns (groups: map<int, Row>)
    requires buckets > 0 && Aligned(t) && offset % BUCKET == 0
    ensures Grouped(groups, t, buckets, offset)
  {
    groups := map[];
    var rest := set k | k in t;
    ghost var done: map<int, Row> := map[];
    assert Grouped(groups, done, buckets, offset) by {
      forall at ensures RowsIn(done, at, buckets) == RowAt(groups, at) { NothingIn(at, buckets); }
    }
    while rest != {}
      invariant done == t - rest && forall k :: k in rest ==> k in t
      invariant Grouped(groups, done, buckets, offset)
      decreases |rest|
    {
      var k := FindLeast(rest, Before);
      GroupedAdds(groups, done, buckets, offset, k, t[k]);
      groups := AddRow(groups, GroupOf(k, Width(buckets), offset), t[k]);
      done := done[k := t[k]];
      rest := rest - {k};
    }
    assert done == t;
  }

  // ---- the report ----

  function RowOf(counts: Row, at: int, width: int): ReportRow {
    ReportRow(at, counts, Max(0, width - counts.observed - counts.estimated),
              Label(counts.observed, counts.estimated, width))
  }

  /** The row of a report that starts at an instant, stated bucket by bucket. */
  function ReportRowAt(t: map<int, Row>, at: int, buckets: nat): ReportRow {
    RowOf(RowsIn(t, at, buckets), at, Width(buckets))
  }

  /** The start of a row, counted from the first one. */
  function RowStart(start: int, i: nat, width: int): int {
    if i == 0 then start else RowStart(start, i - 1, width) + width
  }

  lemma {:induction false} RowStartIs(start: int, i: nat, width: int)
    ensures RowStart(start, i, width) == start + i * width
  {
    if i > 0 {
      RowStartIs(start, i - 1, width);
    }
  }

  /** The first rows of a report. */
  ghost predicate FirstRows(rows: seq<ReportRow>, t: map<int, Row>, start: int, buckets: nat, width: int) {
    forall i {:trigger rows[i]} :: 0 <= i < |rows| ==> rows[i] == ReportRowAt(t, RowStart(start, i, width), buckets)
  }

  ghost predicate IsReport(rows: seq<ReportRow>, t: map<int, Row>, start: int, end: int, buckets: nat) {
    && RowStart(start, |rows|, Width(buckets)) == end
    && FirstRows(rows, t, start, buckets, Width(buckets))
  }

  lemma BoundaryStep(at: int, width: int, offset: int)
    requires width > 0 && Boundary(at, width, offset)
    ensures Boundary(at + width, width, offset)
  {
    var q := (at + offset) / width;
    assert at + width + offset == (q + 1) * width;
    DivUnique(at + width + offset, width, q + 1, 0);
  }

  /** `report`, without its texts. */
  method MakeReport(db: Db, start: int, end: int, buckets: nat, offset: int, now: nat)
    returns (rows: Option<seq<ReportRow>>)
    requires buckets > 0 && Aligned(db.buckets) && offset % BUCKET == 0
    ensures rows.Some? <==> QueryValid(start, end, Width(buckets), offset)
    ensures rows.Some? ==> IsReport(rows.value, Selected(db.buckets, start, end, now), start, end, buckets)
  {
    var width := Width(buckets);
    if end <= start || end - start > 96 * DAY {
      return None;
    }
    if (start + offset) % width != 0 || (end + offset) % width != 0 {
      return None;
    }
    var t := Selected(db.buckets, start, end, now);
    var groups := Aggregate(t, buckets, offset);
    var count := (end - start) / width;
    RowsFit(start, end, width, offset);
    RowsGrouped(groups, t, start, buckets, width, offset, count);
    var list := MakeRows(groups, t, start, count, buckets, width);
    return Some(list);
  }

  /** The groups that start the first rows of a report. */
  ghost predicate GroupedRows(groups: map<int, Row>, t: map<int, Row>, start: int, buckets: nat, width: int, count: nat) {
    forall i: nat :: i < count ==> GroupIsRow(groups, t, start, i, buckets, width)
  }

  ghost predicate GroupIsRow(groups: map<int, Row>, t: map<int, Row>, start: int, i: nat, buckets: nat, width: int) {
    var at := RowStart(start, i, width);
    RowOf(RowAt(groups, at), at, width) == ReportRowAt(t, at, buckets)
  }

  lemma {:induction false} RowStartsAtBoundary(start: int, i: nat, width: int, offset: int)
    requires width > 0 && Boundary(start, width, offset)
    ensures Boundary(RowStart(start, i, width), width, offset)
  {
    if i > 0 {
      RowStartsAtBoundary(start, i - 1, width, offset);
      BoundaryStep(RowStart(start, i - 1, width), width, offset);
    }
  }

  lemma RowsGrouped(groups: map<int, Row>, t: map<int, Row>, start: int, buckets: nat, width: int, offset: int,
                    count: nat)
    requires buckets > 0 && Grouped(groups, t, buckets, offset) && width == Width(buckets)
    requires Boundary(start, width, offset)
    ensures GroupedRows(groups, t, start, buckets, width, count)
  {
    forall i: nat | i < count ensures GroupIsRow(groups, t, start, i, buckets, width) {
      RowStartsAtBoundary(start, i, width, offset);
      GroupFound(groups, t, start, buckets, width, offset, i);
    }
  }

  lemma GroupFound(groups: map<int, Row>, t: map<int, Row>, start: int, buckets: nat, width: int, offset: int, i: nat)
    requires buckets > 0 && Grouped(groups, t, buckets, offset) && width == Width(buckets)
    requires Boundary(RowStart(start, i, width), width, offset)
    ensures GroupIsRow(groups, t, start, i, buckets, width)
  {
  }

  lemma RowsFit(start: int, end: int, width: int, offset: int)
    requires width > 0 && start <= end && Boundary(start, width, offset) && Boundary(end, width, offset)
    ensures 0 <= (end - start) / width && RowStart(start, (end - start) / width, width) == end
  {
    var p, q := (start + offset) / width, (end + offset) / width;
    assert end - start == (q - p) * width;
    DivUnique(end - start, width, q - p, 0);
    if q < p {
      Times(q + 1, p, width);
    }
    RowStartIs(start, q - p, width);
  }

  /** One row, read off the groups. */
  method ReadRow(groups: map<int, Row>, ghost t: map<int, Row>, ghost start: int, ghost i: nat, at: int,
                 ghost buckets: nat, width: int, ghost count: nat) returns (row: ReportRow)
    requires GroupedRows(groups, t, start, buckets, width, count) && i < count && at == RowStart(start, i, width)
    ensures row == ReportRowAt(t, at, buckets)
  {
    assert GroupIsRow(groups, t, start, i, buckets, width);
    row := RowOf(RowAt(groups, at), at, width);
  }

  /** The loop over `range(start, end, width)`. */
  method MakeRows(groups: map<int, Row>, ghost t: map<int, Row>, start: int, count: nat, ghost buckets: nat, width: int)
    returns (list: seq<ReportRow>)
    requires GroupedRows(groups, t, start, buckets, width, count)
    ensures |list| == count && FirstRows(list, t, start, buckets, width)
  {
    list := [];
    var at := start;
    for i := 0 to count
      invariant |list| == i && at == RowStart(start, i, width)
      invariant FirstRows(list, t, start, buckets, width)
    {
      var row := ReadRow(groups, t, start, i, at, buckets, width, count);
      FirstRowsGrow(list, t, start, buckets, width, row);
      list := list + [row];
      at := at + width;
    }
  }

  lemma FirstRowsGrow(list: seq<ReportRow>, t: map<int, Row>, start: int, buckets: nat, width: int, row: ReportRow)
    requires FirstRows(list, t, start, buckets, width) && row == ReportRowAt(t, RowStart(start, |list|, width), buckets)
    ensures FirstRows(list + [row], t, start, buckets, width)
  {
  }

  // ---- what a report says ----

  lemma {:induction false} SecondsFit(t: map<int, Row>, at: int, buckets: nat, now: int)
    requires CoveredTo(t, now)
    ensures var row := RowsIn(t, at, buckets);
            0 <= row.observed && 0 <= row.estimated && row.observed + row.estimated <= Width(buckets)
  {
    if buckets > 0 {
      SecondsFit(t, at, buckets - 1, now);
      var row := RowAt(t, at + (buckets - 1) * BUCKET);
      assert 0 <= row.observed && 0 <= row.estimated && row.observed + row.estimated <= BUCKET;
    }
  }

  ghost predicate FullySampled(t: map<int, Row>, start: int) {
    start in t && t[start].observed == BUCKET
  }

  ghost predicate AllSampled(t: map<int, Row>, at: int, buckets: nat) {
    forall j :: 0 <= j < buckets ==> FullySampled(t, at + j * BUCKET)
  }

  lemma {:induction false} SampledSeconds(t: map<int, Row>, at: int, buckets: nat, now: int)
    requires CoveredTo(t, now)
    ensures RowsIn(t, at, buckets).observed == Width(buckets) <==> AllSampled(t, at, buckets)
  {
    if buckets > 0 {
      SampledSeconds(t, at, buckets - 1, now);
      SecondsFit(t, at, buckets - 1, now);
      var last := at + (buckets - 1) * BUCKET;
      assert RowAt(t, last).observed <= BUCKET;
      assert RowAt(t, last).observed == BUCKET <==> FullySampled(t, last);
      assert AllSampled(t, at, buckets) <==> AllSampled(t, at, buckets - 1) && FullySampled(t, last);
    }
  }

  /**
   In every row of a report the missing seconds are exactly those no selected bucket covers, so their clamp at
   zero never binds, and "complete" says that every bucket of the row is selected and was normally sampled.
   */
  lemma ReportIsExact(db: Db, start: int, end: int, now: nat, buckets: nat, rows: seq<ReportRow>, i: nat)
    requires buckets > 0 && Covered(db) && i < |rows|
    requires IsReport(rows, Selected(db.buckets, start, end, now), start, end, buckets)
    ensures var row := rows[i];
            && row.start == start + i * Width(buckets)
            && row.missing == Width(buckets) - row.counts.observed - row.counts.estimated
            && (row.quality.Complete? <==> AllSampled(Selected(db.buckets, start, end, now), row.start, buckets))
  {
    var t := Selected(db.buckets, start, end, now);
    RowStartIs(start, i, Width(buckets));
    RowIsExact(t, RowStart(start, i, Width(buckets)), buckets, if db.cursor.Some? then db.cursor.value.at else 0);
  }

  lemma RowIsExact(t: map<int, Row>, at: int, buckets: nat, now: int)
    requires buckets > 0 && CoveredTo(t, now)
    ensures var row := ReportRowAt(t, at, buckets);
            && row.missing == Width(buckets) - row.counts.observed - row.counts.estimated
            && (row.quality.Complete? <==> AllSampled(t, at, buckets))
  {
    SecondsFit(t, at, buckets, now);
    SampledSeconds(t, at, buckets, now);
  }

  // ---- totals ----

  function ReportTotal(rows: seq<ReportRow>, dir: Direction, n: nat): int
    requires n <= |rows|
  {
    if n == 0 then 0 else ReportTotal(rows, dir, n - 1) + rows[n - 1].counts.bytes.Of(dir)
  }

  lemma {:induction false} RowsInJoin(t: map<int, Row>, at: int, a: nat, b: nat, dir: Direction)
    ensures RowsIn(t, at, a + b).bytes.Of(dir) ==
            RowsIn(t, at, a).bytes.Of(dir) + RowsIn(t, at + a * BUCKET, b).bytes.Of(dir)
    decreases b
  {
    if b > 0 {
      RowsInJoin(t, at, a, b - 1, dir);
      assert at + (a + b - 1) * BUCKET == at + a * BUCKET + (b - 1) * BUCKET;
    }
  }

  lemma {:induction false} RowStartGrows(start: int, i: nat, width: int)
    requires 0 <= width
    ensures start <= RowStart(start, i, width)
  {
    if i > 0 {
      RowStartGrows(start, i - 1, width);
    }
  }

  /** The first n rows hold what is stored in the buckets up to the next one. */
  lemma {:induction false} TotalIsRowsIn(rows: seq<ReportRow>, t: map<int, Row>, start: int, buckets: nat,
                                         dir: Direction, n: nat, all: nat)
    requires FirstRows(rows, t, start, buckets, Width(buckets)) && n <= |rows|
    requires RowStart(start, n, Width(buckets)) == start + all * BUCKET
    ensures ReportTotal(rows, dir, n) == RowsIn(t, start, all).bytes.Of(dir)
    decreases n
  {
    if n > 0 {
      RowStartGrows(start, n - 1, Width(buckets));
      TotalIsRowsIn(rows, t, start, buckets, dir, n - 1, all - buckets);
      TotalNext(rows, t, start, buckets, dir, n, all - buckets);
    }
  }

  lemma TotalNext(rows: seq<ReportRow>, t: map<int, Row>, start: int, buckets: nat, dir: Direction, n: nat, before: nat)
    requires 0 < n <= |rows| && FirstRows(rows, t, start, buckets, Width(buckets))
    requires RowStart(start, n - 1, Width(buckets)) == start + before * BUCKET
    requires ReportTotal(rows, dir, n - 1) == RowsIn(t, start, before).bytes.Of(dir)
    ensures ReportTotal(rows, dir, n) == RowsIn(t, start, before + buckets).bytes.Of(dir)
  {
    assert rows[n - 1] == ReportRowAt(t, RowStart(start, n - 1, Width(buckets)), buckets);
    RowsInJoin(t, start, before, buckets, dir);
  }

  /** Consecutive buckets that take in a whole table hold its sum. */
  lemma {:induction false} RowsInIsSum(t: map<int, Row>, at: int, buckets: nat, dir: Direction)
    requires at % BUCKET == 0 && forall k :: k in t ==> k % BUCKET == 0 && at <= k < at + buckets * BUCKET
    ensures RowsIn(t, at, buckets).bytes.Of(dir) == Sum(Traffic(t), dir)
    decreases buckets
  {
    if buckets == 0 {
      EmptyWindow(t, at);
    } else {
      var last := at + (buckets - 1) * BUCKET;
      var rest := t - {last};
      forall k | k in rest ensures k < last { LastBucket(k, at, buckets); }
      RowsInIsSum(rest, at, buckets - 1, dir);
      if last in t {
        assert t == rest[last := t[last]];
        RowsInAdded(rest, last, t[last], at, buckets - 1);
        TrafficTake(t, last, dir);
      } else {
        assert rest == t;
      }
    }
  }

  lemma TrafficTake(t: map<int, Row>, k: int, dir: Direction)
    requires k in t
    ensures Sum(Traffic(t), dir) == t[k].bytes.Of(dir) + Sum(Traffic(t - {k}), dir)
  {
    SumTake(Traffic(t), dir, k);
    assert Traffic(t) - {k} == Traffic(t - {k});
  }

  lemma EmptyWindow(t: map<int, Row>, at: int)
    requires forall k :: k in t ==> at <= k < at
    ensures Traffic(t) == map[]
  {
    assert forall k :: k !in t;
    assert Traffic(t).Keys == {};
  }

  lemma WholeRange(start: int, end: int)
    requires start <= end && start % BUCKET == 0 && end % BUCKET == 0
    ensures 0 <= (end - start) / BUCKET && start + (end - start) / BUCKET * BUCKET == end
  {
  }

  /** The totals of a report are exactly the bytes of the selected buckets: rows neither overlap nor leave gaps. */
  lemma ReportTotals(db: Db, start: int, end: int, buckets: nat, offset: int, now: nat, rows: seq<ReportRow>,
                     dir: Direction)
    requires buckets > 0 && Aligned(db.buckets) && offset % BUCKET == 0
    requires QueryValid(start, end, Width(buckets), offset)
    requires IsReport(rows, Selected(db.buckets, start, end, now), start, end, buckets)
    ensures ReportTotal(rows, dir, |rows|) == Sum(Traffic(Selected(db.buckets, start, end, now)), dir)
  {
    var t, all := Selected(db.buckets, start, end, now), (end - start) / BUCKET;
    RowsStartInBuckets(start, buckets, offset);
    RowsStartInBuckets(end, buckets, offset);
    WholeRange(start, end);
    TotalIsRowsIn(rows, t, start, buckets, dir, |rows|, all);
    RowsInIsSum(t, start, all, dir);
  }
}
