/** Coverage seconds never overlap, and retention bounds the number of rows. */
module Coverage {
  import opened Sums
  import opened Calendar
  import opened Database

  /** The part of a bucket that lies before an instant. */
  function Elapsed(start: int, at: int): int {
    if at <= start then 0 else Min(BUCKET, at - start)
  }

  ghost predicate RowCovered(row: Row, start: int, at: int) {
    0 <= row.observed && 0 <= row.estimated && row.observed + row.estimated <= Elapsed(start, at)
  }

  /** Rows are bucket aligned, not later than `at`, and claim no second twice and none after `at`. */
  ghost predicate CoveredTo(t: map<int, Row>, at: int) {
    forall s :: s in t ==> s % BUCKET == 0 && s <= at && RowCovered(t[s], s, at)
  }

  lemma CoveredLater(t: map<int, Row>, at: int, later: int)
    requires CoveredTo(t, at) && at <= later
    ensures CoveredTo(t, later)
  {
  }

  lemma CoverSlice(t: map<int, Row>, span: Span, begin: int, position: int)
    requires CoveredTo(t, position) && span.oldAt <= position < span.at
    ensures CoveredTo(AddRow(t, BucketOf(position), span.RowFor(begin, position)), SliceEnd(position, span.at))
  {
    SliceAdvances(position, span.at);
  }

  lemma {:induction false} FillCovers(t: map<int, Row>, span: Span, begin: int, position: int)
    requires CoveredTo(t, position) && span.oldAt <= position <= span.at
    ensures CoveredTo(Fill(t, span, begin, position), span.at)
    decreases span.at - position
  {
    if position < span.at {
      SliceAdvances(position, span.at);
      CoverSlice(t, span, begin, position);
      FillCovers(AddRow(t, BucketOf(position), span.RowFor(begin, position)), span, begin,
                 SliceEnd(position, span.at));
    }
  }

  /** The database never covers more than the time up to its cursor. */
  ghost predicate Covered(db: Db) {
    && ValidTimes(db)
    && (db.cursor.None? ==> db.buckets == map[])
    && (db.cursor.Some? ==> CoveredTo(db.buckets, db.cursor.value.at))
  }

  lemma PruneCovered(db: Db, now: nat)
    requires Covered(db)
    ensures Covered(Prune(db, now))
  {
  }

  lemma SpanCovers(t: map<int, Row>, span: Span)
    requires CoveredTo(t, span.oldAt) && span.oldAt <= span.at && 0 <= span.at
    ensures CoveredTo(Fill(t, span, span.Begin(), span.Begin()), span.at)
  {
    CutoffWindow(span.at);
    CoveredLater(t, span.oldAt, span.Begin());
    FillCovers(t, span, span.Begin(), span.Begin());
  }

  lemma AppliedCovers(db: Db, s: Sample)
    requires Covered(db) && Accepted(OutcomeOf(db, s))
    ensures Covered(Apply(db, s))
  {
    if db.cursor.Some? {
      var span := SpanOf(db.cursor.value, s);
      SpanCovers(db.buckets, span);
      assert Apply(db, s).buckets == Fill(db.buckets, span, span.Begin(), span.Begin());
    }
  }

  /** Sampling never covers a second twice. */
  lemma RecordCovers(db: Db, s: Sample)
    requires Covered(db)
    ensures Covered(Record(db, s))
  {
    if Accepted(OutcomeOf(db, s)) {
      AppliedCovers(db, s);
      PruneCovered(Apply(db, s), s.at);
    }
  }

  /** The interval and row constraints the collector checks before importing. */
  ghost predicate BatchInTime(b: Batch) {
    && 0 <= b.from <= b.to
    && forall i :: 0 <= i < |b.rows| ==>
         b.rows[i].start % BUCKET == 0 && BucketOf(b.from) <= b.rows[i].start <= BucketOf(b.to)
  }

  /** Rows book bytes but no seconds. */
  lemma {:induction false} RowsCover(t: Tables, rows: seq<BatchRow>, cut: int, n: nat, at: int, to: int)
    requires n <= |rows| && CoveredTo(t.buckets, at) && at <= to
    requires forall i :: 0 <= i < |rows| ==> rows[i].start % BUCKET == 0 && rows[i].start <= to
    ensures forall s :: s in ImportRows(t, rows, cut, n).buckets ==>
              s % BUCKET == 0 && s <= to && RowCovered(ImportRows(t, rows, cut, n).buckets[s], s, at)
  {
    if n > 0 {
      RowsCover(t, rows, cut, n - 1, at, to);
    }
  }

  /** Rows of an unfinished interval may be ahead of the covered time, but not of the interval. */
  ghost predicate CoveredWithin(t: map<int, Row>, at: int, to: int) {
    forall s :: s in t ==> s % BUCKET == 0 && s <= to && RowCovered(t[s], s, at)
  }

  lemma CoverSliceWithin(t: map<int, Row>, span: Span, begin: int, position: int)
    requires CoveredWithin(t, position, span.at) && span.oldAt <= position < span.at
    ensures CoveredWithin(AddRow(t, BucketOf(position), span.RowFor(begin, position)),
                          SliceEnd(position, span.at), span.at)
  {
    SliceAdvances(position, span.at);
  }

  lemma {:induction false} FillCoversWithin(t: map<int, Row>, span: Span, begin: int, position: int)
    requires CoveredWithin(t, position, span.at) && span.oldAt <= position <= span.at
    ensures CoveredTo(Fill(t, span, begin, position), span.at)
    decreases span.at - position
  {
    if position < span.at {
      SliceAdvances(position, span.at);
      CoverSliceWithin(t, span, begin, position);
      FillCoversWithin(AddRow(t, BucketOf(position), span.RowFor(begin, position)), span, begin,
                       SliceEnd(position, span.at));
    }
  }

  lemma BatchCovers(db: Db, b: Batch)
    requires Covered(db) && BatchInTime(b)
    requires db.cursor.Some? ==> db.cursor.value.at <= b.from
    ensures Covered(ApplyBatch(db, b))
  {
    var before := Tables(db.buckets, db.domainBuckets, Bytes(0, 0));
    var booked := ImportRows(before, b.rows, Cutoff(b.to), |b.rows|);
    var span := CoverageSpan(b);
    var at := if db.cursor.Some? then db.cursor.value.at else b.from;
    forall i | 0 <= i < |b.rows| ensures b.rows[i].start <= b.to { Floored(b.to); }
    RowsCover(before, b.rows, Cutoff(b.to), |b.rows|, at, b.to);
    CutoffWindow(b.to);
    assert CoveredWithin(booked.buckets, span.Begin(), b.to);
    FillCoversWithin(booked.buckets, span, span.Begin(), span.Begin());
  }

  /** A batch that starts no earlier than the cursor never covers a second twice. */
  lemma ImportCovers(db: Db, b: Batch)
    requires Covered(db) && BatchInTime(b)
    requires db.cursor.Some? ==> db.cursor.value.at <= b.from
    ensures Covered(Import(db, b))
  {
    if ImportOutcome(db, b).Committed? {
      BatchCovers(db, b);
      PruneCovered(ApplyBatch(db, b), b.to);
    }
  }

  /** A batch without rows whose interval lies in the bucket it starts. */
  ghost predicate Short(b: Batch, start: int) {
    0 <= start && start % BUCKET == 0 && b.from == start && start <= b.to <= start + BUCKET && b.rows == []
  }

  lemma FirstOfEpoch(db: Db, b: Batch)
    requires b.epoch !in db.epochs && b.sequence == 1 && (db.cursor.Some? ==> db.cursor.value.at <= b.from)
    ensures ImportOutcome(db, b).Committed?
  {
  }

  lemma NextOfEpoch(db: Db, b: Batch)
    requires b.epoch in db.epochs && b.sequence == db.epochs[b.epoch].sequence + 1 && b.from == db.epochs[b.epoch].at
    ensures ImportOutcome(db, b).Committed?
  {
  }

  lemma ShortFill(t: map<int, Row>, b: Batch, start: int)
    requires Short(b, start)
    ensures RowAt(Fill(t, CoverageSpan(b), start, start), start).observed ==
            RowAt(t, start).observed + (b.to - start)
  {
    if start < b.to {
      var span := CoverageSpan(b);
      assert BucketOf(start) == start && SliceEnd(start, b.to) == b.to;
      assert Fill(AddRow(t, start, span.RowFor(start, start)), span, start, b.to) ==
             AddRow(t, start, span.RowFor(start, start));
    }
  }

  lemma ImportShort(db: Db, b: Batch, start: int)
    requires ImportOutcome(db, b).Committed? && Short(b, start)
    ensures RowAt(Import(db, b).buckets, start).observed == RowAt(db.buckets, start).observed + (b.to - start)
    ensures Import(db, b).epochs == db.epochs[b.epoch := EpochRow(b.sequence, b, b.to, TailLoss(db, b))]
    ensures Import(db, b).cursor.Some? && Import(db, b).cursor.value.at == b.to
  {
    CutoffWindow(b.to);
    ShortFill(db.buckets, b, start);
    assert ApplyBatch(db, b).buckets == Fill(db.buckets, CoverageSpan(b), start, start);
  }

  /** The first epoch has reached the start of a bucket and another epoch has covered part of that bucket. */
  ghost predicate TwoEpochs(db: Db, epoch: string, start: int, at: int) {
    && epoch in db.epochs && db.epochs[epoch].sequence == 1 && db.epochs[epoch].at == start
    && db.cursor.Some? && db.cursor.value.at == at
    && RowAt(db.buckets, start).observed == at - start
  }

  /** Such a state is reached by the first batches of two epochs. */
  lemma TwoEpochsImported(db: Db, a1: Batch, b1: Batch, start: int)
    requires Short(a1, start) && a1.to == start && Short(b1, start)
    requires a1.sequence == 1 && b1.sequence == 1 && a1.epoch != b1.epoch
    requires a1.epoch !in db.epochs && b1.epoch !in db.epochs
    requires db.cursor.None? && RowAt(db.buckets, start).observed == 0
    ensures ImportOutcome(db, a1).Committed? && ImportOutcome(Import(db, a1), b1).Committed?
    ensures TwoEpochs(Import(Import(db, a1), b1), a1.epoch, start, b1.to)
  {
    FirstOfEpoch(db, a1);
    ImportShort(db, a1, start);
    FirstOfEpoch(Import(db, a1), b1);
    ImportShort(Import(db, a1), b1, start);
  }

  /**
   Importing alone does not enforce the engine's order: the first epoch's second batch is then accepted
   although it starts before the cursor, and the bucket claims more seconds than have passed.
   */
  lemma InterleavedEpochsOverlap(db: Db, a2: Batch, start: int)
    requires Short(a2, start) && a2.sequence == 2 && start < a2.to
    requires TwoEpochs(db, a2.epoch, start, a2.to)
    ensures ImportOutcome(db, a2).Committed? && a2.from < db.cursor.value.at
    ensures RowAt(Import(db, a2).buckets, start).observed == 2 * (a2.to - start)
    ensures !Covered(Import(db, a2))
  {
    NextOfEpoch(db, a2);
    ImportShort(db, a2, start);
    assert !RowCovered(RowAt(Import(db, a2).buckets, start), start, a2.to);
  }

  /**
   Which committed batches start no earlier than the cursor: those of a new epoch, and those of an epoch whose
   row still stands at the cursor because nothing was imported after it.
   */
  lemma CommittedInOrder(db: Db, b: Batch)
    requires ImportOutcome(db, b).Committed? && db.cursor.Some? && 0 <= b.to
    ensures db.cursor.value.at <= b.from <==>
              b.epoch !in db.epochs || db.cursor.value.at <= db.epochs[b.epoch].at
    ensures Covered(db) && BatchInTime(b) && (b.epoch !in db.epochs || db.cursor.value.at <= db.epochs[b.epoch].at) ==>
              Covered(Import(db, b))
    ensures Import(db, b).cursor.Some? && b.epoch in Import(db, b).epochs
    ensures Import(db, b).cursor.value.at == Import(db, b).epochs[b.epoch].at
  {
    if Covered(db) && BatchInTime(b) && db.cursor.value.at <= b.from {
      ImportCovers(db, b);
    }
  }

  // ---- retention ----

  /** Bucket starts in a window, counted. */
  lemma {:induction false} AlignedCount(s: set<int>, low: int, n: nat)
    requires low % BUCKET == 0
    requires forall k :: k in s ==> k % BUCKET == 0 && low <= k < low + n * BUCKET
    ensures |s| <= n
    decreases n
  {
    if n == 0 {
      assert low + n * BUCKET == low;
      assert forall k :: k in s ==> low <= k < low;
      assert s == {};
    } else {
      var last := low + (n - 1) * BUCKET;
      forall k | k in s - {last} ensures k < last {
        NextAligned(k, last);
      }
      AlignedCount(s - {last}, low, n - 1);
    }
  }

  lemma NextAligned(k: int, last: int)
    requires k % BUCKET == 0 && last % BUCKET == 0 && k < last + BUCKET && k != last
    ensures k < last
  {
  }

  /** After any retention pass at the cursor's time at most 92*96+1 bucket rows remain. */
  lemma TableBounded(db: Db, now: nat)
    requires Covered(db) && db.cursor.Some? && db.cursor.value.at <= now
    ensures |Prune(db, now).buckets| <= 92 * 96 + 1
  {
    var kept := Prune(db, now).buckets;
    CutoffWindow(now);
    var low := Cutoff(now);
    forall k | k in kept.Keys ensures k % BUCKET == 0 && low <= k < low + 8833 * BUCKET {
      WindowFits(k, low, now);
    }
    AlignedCount(kept.Keys, low, 8833);
    assert |kept| == |kept.Keys|;
  }

  lemma WindowFits(k: int, low: int, now: int)
    requires k <= now && now - low < 92 * DAY + BUCKET
    ensures k < low + 8833 * BUCKET
  {
  }

  /** So every accepted sample and every committed batch leaves a bounded table. */
  lemma CommitsAreBounded(db: Db, s: Sample, b: Batch)
    requires Covered(db) && BatchInTime(b)
    requires db.cursor.Some? ==> db.cursor.value.at <= b.from
    ensures Accepted(OutcomeOf(db, s)) ==> |Record(db, s).buckets| <= 92 * 96 + 1
    ensures ImportOutcome(db, b).Committed? ==> |Import(db, b).buckets| <= 92 * 96 + 1
  {
    if Accepted(OutcomeOf(db, s)) {
      AppliedCovers(db, s);
      TableBounded(Apply(db, s), s.at);
    }
    if ImportOutcome(db, b).Committed? {
      BatchCovers(db, b);
      TableBounded(ApplyBatch(db, b), b.to);
    }
  }

  /** Once a batch is in, polling samples are refused and change nothing. */
  lemma PollingRefused(db: Db, s: Sample)
    requires ValidTimes(db) && db.cursor.Some? && db.cursor.value.source == KERNEL_SOURCE
    requires s.source != KERNEL_SOURCE
    ensures OutcomeOf(db, s).InvalidCounter? || OutcomeOf(db, s).SourceChanged?
    ensures Record(db, s) == db
  {
  }
}
