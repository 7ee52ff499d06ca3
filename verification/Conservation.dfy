/** What a run of samples keeps: the bytes counted, and the agreement of the two tables. */
module Conservation {
  import opened Sums
  import opened Allocation
  import opened Calendar
  import opened Wrappers
  import opened Database
  import opened Attribution
  import opened Journal

  ghost function Traffic(t: map<int, Row>): map<int, Bytes> {
    map s | s in t :: t[s].bytes
  }

  /** All bytes in the totals table. */
  ghost function Stored(db: Db, dir: Direction): int {
    Sum(Traffic(db.buckets), dir)
  }

  ghost function Older(cut: int): int -> bool { (s: int) => s < cut }

  ghost function Newer(cut: int): int -> bool { (s: int) => s >= cut }

  /** The bytes a retention pass removes from the totals table. */
  ghost function Expired(db: Db, now: nat, dir: Direction): int {
    Sum(Where(Traffic(db.buckets), Older(Cutoff(now))), dir)
  }

  lemma PruneStored(db: Db, now: nat, dir: Direction)
    ensures Stored(Prune(db, now), dir) + Expired(db, now, dir) == Stored(db, dir)
  {
    var cut := Cutoff(now);
    SumSplit(Traffic(db.buckets), dir, Newer(cut), Older(cut));
    assert Traffic(Prune(db, now).buckets) == Where(Traffic(db.buckets), Newer(cut));
  }

  lemma AddRowStored(t: map<int, Row>, start: int, row: Row, dir: Direction)
    ensures Sum(Traffic(AddRow(t, start, row)), dir) == Sum(Traffic(t), dir) + row.bytes.Of(dir)
  {
    assert Traffic(AddRow(t, start, row)) == Upsert(Traffic(t), start, row.bytes);
    SumUpsert(Traffic(t), dir, start, row.bytes);
  }

  /** Filling from a position books exactly the share of the delta after it. */
  lemma {:induction false} FillStored(t: map<int, Row>, span: Span, begin: int, position: int, dir: Direction)
    requires span.oldAt <= position <= span.at && span.oldAt < span.at
    ensures Sum(Traffic(Fill(t, span, begin, position)), dir) ==
            Sum(Traffic(t), dir) + span.Share(span.delta, position, span.at).Of(dir)
    decreases span.at - position
  {
    if position < span.at {
      SliceAdvances(position, span.at);
      var end := SliceEnd(position, span.at);
      var row := span.RowFor(begin, position);
      AddRowStored(t, BucketOf(position), row, dir);
      FillStored(AddRow(t, BucketOf(position), row), span, begin, end, dir);
      ShareAdjacent(span.delta.Of(dir), position - span.oldAt, end - span.oldAt, span.at - span.oldAt,
                    span.at - span.oldAt);
    }
  }

  /** The delta an accepted sample stands for; zero for a baseline or a refused sample. */
  function Counted(db: Db, s: Sample): Bytes {
    if Accepted(OutcomeOf(db, s)) && db.cursor.Some? then SpanOf(db.cursor.value, s).delta else Bytes(0, 0)
  }

  /** The part of the delta that is never booked because it lies before the retention boundary. */
  function Unbooked(db: Db, s: Sample, dir: Direction): int
    requires ValidTimes(db)
  {
    if Accepted(OutcomeOf(db, s)) && db.cursor.Some? then
      var span := SpanOf(db.cursor.value, s);
      span.Share(span.delta, span.oldAt, span.Begin()).Of(dir)
    else 0
  }

  /** Everything retention drops when a sample is recorded. */
  ghost function Dropped(db: Db, s: Sample, dir: Direction): int
    requires ValidTimes(db)
  {
    if Accepted(OutcomeOf(db, s)) then Unbooked(db, s, dir) + Expired(Apply(db, s), s.at, dir) else 0
  }

  lemma BeginInside(span: Span)
    requires span.oldAt < span.at && 0 <= span.at
    ensures span.oldAt <= span.Begin() < span.at
  {
    CutoffWindow(span.at);
  }

  lemma SpanStored(t: map<int, Row>, span: Span, dir: Direction)
    requires span.oldAt < span.at && 0 <= span.at
    ensures Sum(Traffic(Fill(t, span, span.Begin(), span.Begin())), dir) +
            span.Share(span.delta, span.oldAt, span.Begin()).Of(dir) ==
            Sum(Traffic(t), dir) + span.delta.Of(dir)
  {
    BeginInside(span);
    FillStored(t, span, span.Begin(), span.Begin(), dir);
    SharesJoin(span, span.Begin(), dir);
  }

  lemma SharesJoin(span: Span, middle: int, dir: Direction)
    requires span.oldAt < span.at
    ensures span.Share(span.delta, span.oldAt, middle).Of(dir) + span.Share(span.delta, middle, span.at).Of(dir) ==
            span.delta.Of(dir)
  {
    if dir.Upload? {
      ShareJoins(span.delta.up, middle - span.oldAt, span.at - span.oldAt);
    } else {
      ShareJoins(span.delta.down, middle - span.oldAt, span.at - span.oldAt);
    }
  }

  lemma ShareJoins(amount: int, middle: int, duration: int)
    requires 0 < duration
    ensures Share(amount, 0, middle, duration) + Share(amount, middle, duration, duration) == amount
  {
    ShareAdjacent(amount, 0, middle, duration, duration);
    ShareWhole(amount, duration);
  }

  lemma AppliedBuckets(db: Db, s: Sample)
    requires ValidTimes(db) && Accepted(OutcomeOf(db, s))
    ensures Apply(db, s).buckets ==
            if db.cursor.None? then db.buckets
            else
              var span := SpanOf(db.cursor.value, s);
              Fill(db.buckets, span, span.Begin(), span.Begin())
  {
  }

  lemma ApplyConserves(db: Db, s: Sample, dir: Direction)
    requires ValidTimes(db) && Accepted(OutcomeOf(db, s))
    ensures Stored(Apply(db, s), dir) + Unbooked(db, s, dir) == Stored(db, dir) + Counted(db, s).Of(dir)
  {
    AppliedBuckets(db, s);
    if db.cursor.Some? {
      SpanStored(db.buckets, SpanOf(db.cursor.value, s), dir);
    }
  }

  /** One sample: stored plus dropped grows by exactly the counted delta; a refused one changes nothing. */
  lemma RecordConserves(db: Db, s: Sample, dir: Direction)
    requires ValidTimes(db)
    ensures Stored(Record(db, s), dir) + Dropped(db, s, dir) == Stored(db, dir) + Counted(db, s).Of(dir)
    ensures !Accepted(OutcomeOf(db, s)) ==> Record(db, s) == db
  {
    if Accepted(OutcomeOf(db, s)) {
      ApplyConserves(db, s, dir);
      PruneStored(Apply(db, s), s.at, dir);
    }
  }

  // ---- importing a batch ----

  /** The bytes of the rows that importing skips because their bucket is older than the boundary. */
  function Skipped(rows: seq<BatchRow>, cut: int, dir: Direction, n: nat): int
    requires n <= |rows|
  {
    if n == 0 then 0
    else Skipped(rows, cut, dir, n - 1) + (if rows[n - 1].start < cut then rows[n - 1].bytes.Of(dir) else 0)
  }

  lemma {:induction false} RowsStored(t: Tables, rows: seq<BatchRow>, cut: int, n: nat, dir: Direction)
    requires n <= |rows|
    ensures Sum(Traffic(ImportRows(t, rows, cut, n).buckets), dir) + Skipped(rows, cut, dir, n) ==
            Sum(Traffic(t.buckets), dir) + RowsTotal(rows, dir, n)
  {
    if n > 0 {
      RowsStored(t, rows, cut, n - 1, dir);
      var row := rows[n - 1];
      AddRowStored(ImportRows(t, rows, cut, n - 1).buckets, row.start, Row(row.bytes, 0, 0, 0), dir);
    }
  }

  /** Covering an interval books no bytes. */
  lemma CoverageStored(t: map<int, Row>, b: Batch, dir: Direction)
    requires 0 <= b.to
    ensures var span := CoverageSpan(b);
            Sum(Traffic(Fill(t, span, span.Begin(), span.Begin())), dir) == Sum(Traffic(t), dir)
  {
    var span := CoverageSpan(b);
    if span.Begin() < span.at {
      FillStored(t, span, span.Begin(), span.Begin(), dir);
      ShareOfNothing(span, span.Begin(), span.at, dir);
    }
  }

  /** Everything retention drops when a batch is imported. */
  ghost function ImportDropped(db: Db, b: Batch, dir: Direction): int
    requires 0 <= b.to
  {
    if ImportOutcome(db, b).Committed?
    then Skipped(b.rows, Cutoff(b.to), dir, |b.rows|) + Expired(ApplyBatch(db, b), b.to, dir)
    else 0
  }

  ghost function ImportDropping(db: Db, b: Batch): (bytes: Bytes)
    requires 0 <= b.to
    ensures forall dir: Direction :: bytes.Of(dir) == ImportDropped(db, b, dir)
  {
    Bytes(ImportDropped(db, b, Upload), ImportDropped(db, b, Download))
  }

  /** A committed batch adds exactly its bytes to what is stored or dropped; any other import adds nothing. */
  lemma ImportConserves(db: Db, b: Batch, dir: Direction)
    requires 0 <= b.to
    ensures Stored(Import(db, b), dir) + ImportDropped(db, b, dir) ==
            Stored(db, dir) + (if ImportOutcome(db, b).Committed? then BatchTotal(b, dir) else 0)
  {
    if ImportOutcome(db, b).Committed? {
      var before := Tables(db.buckets, db.domainBuckets, Bytes(0, 0));
      RowsStored(before, b.rows, Cutoff(b.to), |b.rows|, dir);
      CoverageStored(ImportRows(before, b.rows, Cutoff(b.to), |b.rows|).buckets, b, dir);
      PruneStored(ApplyBatch(db, b), b.to, dir);
    }
  }

  /**
   What is imported, what is already there, what contradicts it, and what is refused: a batch is committed exactly
   when it opens a new epoch no earlier than the cursor or continues its epoch where that stopped.
   */
  lemma ImportDecides(db: Db, b: Batch)
    ensures var known := b.epoch in db.epochs;
            && (ImportOutcome(db, b).Committed? <==>
                  if known then b.sequence == db.epochs[b.epoch].sequence + 1 && b.from == db.epochs[b.epoch].at
                  else b.sequence == 1 && (db.cursor.Some? ==> db.cursor.value.at <= b.from))
            && (ImportOutcome(db, b).Duplicate? <==>
                  known && (b.sequence < db.epochs[b.epoch].sequence
                            || (b.sequence == db.epochs[b.epoch].sequence && b == db.epochs[b.epoch].digest)))
            && (ImportOutcome(db, b).Conflict? <==>
                  known && b.sequence == db.epochs[b.epoch].sequence && b != db.epochs[b.epoch].digest)
    ensures 0 <= b.to && !ImportOutcome(db, b).Committed? ==> Import(db, b) == db
  {
  }

  lemma {:induction false} TotalKept(t: Tables, rows: seq<BatchRow>, cut: int, n: nat, dir: Direction)
    requires n <= |rows|
    ensures ImportRows(t, rows, cut, n).total.Of(dir) + Skipped(rows, cut, dir, n) ==
            t.total.Of(dir) + RowsTotal(rows, dir, n)
  {
    if n > 0 {
      TotalKept(t, rows, cut, n - 1, dir);
    }
  }

  /**
   A committed batch moves both cursors to its end and on by the bytes it booked, keeps the first tracking times,
   forgets all checkpoints and records the batch under its epoch.
   */
  lemma ImportLeaves(db: Db, b: Batch, dir: Direction)
    requires ImportOutcome(db, b).Committed? && 0 <= b.to
    ensures var after := Import(db, b);
            && after.cursor.Some? && after.domainState.Some?
            && after.cursor.value == Cursor(b.to, after.cursor.value.bytes, b.epoch, KERNEL_SOURCE)
            && after.domainState.value == DomainState(b.to, after.cursor.value.bytes, b.epoch,
                 if db.domainState.Some? then db.domainState.value.started else b.from)
            && after.cursor.value.bytes.Of(dir) ==
               (if db.cursor.Some? then db.cursor.value.bytes.Of(dir) else 0)
               + BatchTotal(b, dir) - Skipped(b.rows, Cutoff(b.to), dir, |b.rows|)
            && after.kernelStarted == (if db.kernelStarted.Some? then db.kernelStarted else Some(b.from))
            && after.domainCursor == map[]
            && b.epoch in after.epochs
            && after.epochs[b.epoch] == EpochRow(b.sequence, b, b.to,
                 b.unclean || (b.epoch in db.epochs && db.epochs[b.epoch].tailLoss))
            && (forall e :: e != b.epoch ==> (e in after.epochs <==> e in db.epochs)
                                             && (e in db.epochs ==> after.epochs[e] == db.epochs[e]))
  {
    TotalKept(Tables(db.buckets, db.domainBuckets, Bytes(0, 0)), b.rows, Cutoff(b.to), |b.rows|, dir);
  }

  // ---- whole runs ----

  lemma RecordTimes(db: Db, s: Sample)
    requires ValidTimes(db)
    ensures ValidTimes(Record(db, s))
  {
  }

  /** The database after a run of samples. */
  ghost function Run(db: Db, samples: seq<Sample>): (after: Db)
    requires ValidTimes(db)
    ensures ValidTimes(after)
    decreases |samples|
  {
    if samples == [] then db
    else
      RecordTimes(db, samples[0]);
      Run(Record(db, samples[0]), samples[1..])
  }

  ghost function RunCounted(db: Db, samples: seq<Sample>, dir: Direction): int
    requires ValidTimes(db)
    decreases |samples|
  {
    if samples == [] then 0
    else
      RecordTimes(db, samples[0]);
      Counted(db, samples[0]).Of(dir) + RunCounted(Record(db, samples[0]), samples[1..], dir)
  }

  ghost function RunDropped(db: Db, samples: seq<Sample>, dir: Direction): int
    requires ValidTimes(db)
    decreases |samples|
  {
    if samples == [] then 0
    else
      RecordTimes(db, samples[0]);
      Dropped(db, samples[0], dir) + RunDropped(Record(db, samples[0]), samples[1..], dir)
  }

  /** Over any run: stored plus dropped is what was stored before plus every accepted delta. */
  lemma {:induction false} RunConserves(db: Db, samples: seq<Sample>, dir: Direction)
    requires ValidTimes(db)
    ensures Stored(Run(db, samples), dir) + RunDropped(db, samples, dir) ==
            Stored(db, dir) + RunCounted(db, samples, dir)
    decreases |samples|
  {
    if samples != [] {
      RecordTimes(db, samples[0]);
      RecordConserves(db, samples[0], dir);
      RunConserves(Record(db, samples[0]), samples[1..], dir);
    }
  }

  /** No accepted sample of the run is counted from zero; refused samples may occur anywhere. */
  ghost predicate ResetFree(db: Db, samples: seq<Sample>)
    requires ValidTimes(db)
    decreases |samples|
  {
    samples == [] ||
    (RecordTimes(db, samples[0]);
     && !OutcomeOf(db, samples[0]).Reset?
     && ResetFree(Record(db, samples[0]), samples[1..]))
  }

  /** The counters of the accepted samples of a run, in order. */
  ghost function Counters(db: Db, samples: seq<Sample>): seq<Bytes>
    requires ValidTimes(db)
    decreases |samples|
  {
    if samples == [] then []
    else
      RecordTimes(db, samples[0]);
      (if Accepted(OutcomeOf(db, samples[0])) then [samples[0].bytes] else [])
      + Counters(Record(db, samples[0]), samples[1..])
  }

  lemma CursorMoves(db: Db, s: Sample)
    requires ValidTimes(db) && db.cursor.Some?
    ensures Record(db, s).cursor.Some?
    ensures Record(db, s).cursor.value.bytes == if Accepted(OutcomeOf(db, s)) then s.bytes else db.cursor.value.bytes
    ensures !OutcomeOf(db, s).Reset? ==> forall dir: Direction ::
              Counted(db, s).Of(dir) == Record(db, s).cursor.value.bytes.Of(dir) - db.cursor.value.bytes.Of(dir)
  {
  }

  /** A run counts last minus first over the counters it accepted, unless one of them was counted from zero. */
  lemma {:induction false} ResetFreeRun(db: Db, samples: seq<Sample>, dir: Direction)
    requires ValidTimes(db) && db.cursor.Some? && ResetFree(db, samples)
    ensures var seen := [db.cursor.value.bytes] + Counters(db, samples);
            && Run(db, samples).cursor.Some? && Run(db, samples).cursor.value.bytes == seen[|seen| - 1]
            && RunCounted(db, samples, dir) == seen[|seen| - 1].Of(dir) - seen[0].Of(dir)
    decreases |samples|
  {
    if samples != [] {
      RecordTimes(db, samples[0]);
      CursorMoves(db, samples[0]);
      ResetFreeRun(Record(db, samples[0]), samples[1..], dir);
    }
  }

  /** Every run of samples that carry snapshots keeps both tables in agreement bucket by bucket. */
  lemma {:induction false} RunAgrees(db: Db, samples: seq<Sample>)
    requires Agrees(db)
    requires forall i :: 0 <= i < |samples| ==> SampleValid(samples[i]) && samples[i].connections.Some?
    ensures Agrees(Run(db, samples))
    decreases |samples|
  {
    if samples != [] {
      RecordTimes(db, samples[0]);
      RecordAgrees(db, samples[0]);
      RunAgrees(Record(db, samples[0]), samples[1..]);
    }
  }

  lemma EmptyAgrees()
    ensures Agrees(EMPTY)
  {
    forall start ensures MatchAt(map[], map[], map[], start) {
      var none: map<Key, Bytes> := map[];
      assert Where(none, InBucket(start)) == map[];
    }
  }
}
