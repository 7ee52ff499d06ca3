/** No transaction leaves a negative number in a table. */
module Signs {
  import opened Sums
  import opened Allocation
  import opened Calendar
  import opened Ordering
  import opened Database
  import opened Attribution

  ghost predicate RowSigned(row: Row) {
    row.bytes.NonNegative() && 0 <= row.observed && 0 <= row.estimated && 0 <= row.resets
  }

  ghost predicate SamplingSigned(row: Sampling) {
    row.clipped.NonNegative() && 0 <= row.observed && 0 <= row.estimated && 0 <= row.resets
  }

  ghost predicate AllRows(t: map<int, Row>) {
    forall start :: start in t ==> RowSigned(t[start])
  }

  ghost predicate AllSampling(t: map<int, Sampling>) {
    forall start :: start in t ==> SamplingSigned(t[start])
  }

  ghost predicate AllDomains(t: map<Key, Bytes>) {
    forall key :: key in t ==> t[key].NonNegative()
  }

  ghost predicate Signed(db: Db) {
    ValidTimes(db) && AllRows(db.buckets) && AllSampling(db.sampling) && AllDomains(db.domainBuckets)
  }

  // ---- slices ----

  lemma SharesNonNegative(span: Span, b: Bytes, left: int, right: int)
    requires span.oldAt < span.at && b.NonNegative() && left <= right
    ensures span.Share(b, left, right).NonNegative()
  {
    ShareSigned(span, b, left, right, Upload);
    ShareSigned(span, b, left, right, Download);
  }

  lemma ShareSigned(span: Span, b: Bytes, left: int, right: int, dir: Direction)
    requires span.oldAt < span.at && b.NonNegative() && left <= right
    ensures 0 <= span.Share(b, left, right).Of(dir)
  {
    var from, to, duration := left - span.oldAt, right - span.oldAt, span.at - span.oldAt;
    if dir.Upload? {
      ShareNonNegative(b.up, from, to, duration);
    } else {
      ShareNonNegative(b.down, from, to, duration);
    }
  }

  lemma SliceSigned(span: Span, begin: int, clipped: Bytes, position: int)
    requires span.oldAt <= position < span.at && span.delta.NonNegative() && clipped.NonNegative()
    ensures RowSigned(span.RowFor(begin, position)) && SamplingSigned(span.SamplingFor(begin, position, clipped))
  {
    SliceAdvances(position, span.at);
    SharesNonNegative(span, span.delta, position, SliceEnd(position, span.at));
    SharesNonNegative(span, clipped, position, SliceEnd(position, span.at));
  }

  lemma {:induction false} FillSigned(t: map<int, Row>, span: Span, begin: int, position: int)
    requires AllRows(t) && span.oldAt <= position && span.delta.NonNegative()
    ensures AllRows(Fill(t, span, begin, position))
    decreases span.at - position
  {
    if position < span.at {
      SliceAdvances(position, span.at);
      SliceSigned(span, begin, span.delta, position);
      FillSigned(AddRow(t, BucketOf(position), span.RowFor(begin, position)), span, begin,
                 SliceEnd(position, span.at));
    }
  }

  lemma {:induction false} FillSamplingSigned(t: map<int, Sampling>, span: Span, begin: int, clipped: Bytes,
                                              position: int)
    requires AllSampling(t) && span.oldAt <= position && span.delta.NonNegative() && clipped.NonNegative()
    ensures AllSampling(FillSampling(t, span, begin, clipped, position))
    decreases span.at - position
  {
    if position < span.at {
      SliceAdvances(position, span.at);
      SliceSigned(span, begin, clipped, position);
      FillSamplingSigned(AddSampling(t, BucketOf(position), span.SamplingFor(begin, position, clipped)), span, begin,
                         clipped, SliceEnd(position, span.at));
    }
  }

  // ---- pieces ----

  lemma ColumnSigned(usage: Usage, order: seq<string>, dir: Direction)
    requires AllNonNegative(usage)
    ensures NonNegative(Column(usage, order, dir))
  {
  }

  lemma ApportionSigned(budget: int, total: int, vals: seq<int>)
    requires 0 <= budget && 0 <= total && NonNegative(vals)
    ensures NonNegative(Apportion(budget, total, vals))
  {
    forall i | 0 <= i < |vals| ensures 0 <= Apportion(budget, total, vals)[i] {
      PortionBounds(budget, total, Prefix(vals, i), vals[i]);
    }
  }

  /** A slice's budget is cut into non-negative pieces. */
  lemma PiecesSigned(budget: Bytes, delta: Bytes, usage: Usage, order: seq<string>, i: nat)
    requires budget.NonNegative() && delta.NonNegative() && AllNonNegative(usage) && i < |order|
    ensures Pieces(budget, delta, usage, order)[i].NonNegative()
  {
    ColumnSigned(usage, order, Upload);
    ColumnSigned(usage, order, Download);
    ApportionSigned(budget.up, delta.up, Column(usage, order, Upload));
    ApportionSigned(budget.down, delta.down, Column(usage, order, Download));
  }

  lemma {:induction false} DealSigned(t: map<Key, Bytes>, bucket: int, order: seq<string>, pieces: seq<Bytes>, n: nat)
    requires AllDomains(t) && n <= |order| == |pieces| && forall i :: 0 <= i < n ==> pieces[i].NonNegative()
    ensures AllDomains(Deal(t, bucket, order, pieces, n))
  {
    if n > 0 {
      DealSigned(t, bucket, order, pieces, n - 1);
    }
  }

  lemma DealSliceSigned(t: map<Key, Bytes>, span: Span, usage: Usage, order: seq<string>, position: int)
    requires AllDomains(t) && span.oldAt <= position < span.at && span.delta.NonNegative() && AllNonNegative(usage)
    ensures AllDomains(DealSlice(t, span, usage, order, position))
  {
    SliceAdvances(position, span.at);
    var budget := span.Share(span.delta, position, SliceEnd(position, span.at));
    SharesNonNegative(span, span.delta, position, SliceEnd(position, span.at));
    var pieces := Pieces(budget, span.delta, usage, order);
    forall i | 0 <= i < |order| ensures pieces[i].NonNegative() {
      PiecesSigned(budget, span.delta, usage, order, i);
    }
    DealSigned(t, BucketOf(position), order, pieces, |order|);
  }

  lemma {:induction false} FillDomainsSigned(t: map<Key, Bytes>, span: Span, usage: Usage, order: seq<string>,
                                             position: int)
    requires AllDomains(t) && span.oldAt <= position && span.delta.NonNegative() && AllNonNegative(usage)
    ensures AllDomains(FillDomains(t, span, usage, order, position))
    decreases span.at - position
  {
    if position < span.at {
      SliceAdvances(position, span.at);
      DealSliceSigned(t, span, usage, order, position);
      FillDomainsSigned(DealSlice(t, span, usage, order, position), span, usage, order, SliceEnd(position, span.at));
    }
  }

  // ---- transactions ----

  lemma BetweenSigned(oldAt: int, oldBytes: Bytes, oldEpoch: string, at: int, bytes: Bytes, epoch: string, interval: int)
    requires bytes.NonNegative()
    ensures Between(oldAt, oldBytes, oldEpoch, at, bytes, epoch, interval).delta.NonNegative()
  {
  }

  lemma AttributionSigned(db: Db, s: Sample, span: Span)
    requires s.connections.Some? && ConnectionsValid(s.connections.value) && span.delta.NonNegative()
    ensures AllNonNegative(Attribute(SnapshotUsage(db, s, span), span.delta))
    ensures ClippedBytes(SnapshotUsage(db, s, span), span.delta).NonNegative()
  {
    var conns := s.connections.value;
    TallyValid(db.domainCursor, conns, span.oldAt, span.at, |conns|);
    AttributionKeys(SnapshotUsage(db, s, span), span.delta);
  }

  lemma RecordDomainsSigned(db: Db, s: Sample)
    requires Signed(db) && s.connections.Some? && SampleValid(s) && s.bytes.NonNegative()
    ensures AllDomains(RecordDomains(db, s).domainBuckets) && AllSampling(RecordDomains(db, s).sampling)
  {
    if db.domainState.Some? && db.domainState.value.at < s.at {
      var prev := db.domainState.value;
      var span := Between(prev.at, prev.bytes, prev.epoch, s.at, s.bytes, s.epoch, s.interval);
      BetweenSigned(prev.at, prev.bytes, prev.epoch, s.at, s.bytes, s.epoch, s.interval);
      AttributionSigned(db, s, span);
      var raw, begin := SnapshotUsage(db, s, span), span.Begin();
      var usage := Attribute(raw, span.delta);
      FillDomainsSigned(db.domainBuckets, span, usage, SortedNames(usage.Keys), begin);
      FillSamplingSigned(db.sampling, span, begin, ClippedBytes(raw, span.delta), begin);
    }
  }

  lemma FilledSigned(db: Db, s: Sample)
    requires Signed(db) && Accepted(OutcomeOf(db, s)) && db.cursor.Some?
    ensures var span := SpanOf(db.cursor.value, s);
            span.oldAt <= span.Begin() && AllRows(Fill(db.buckets, span, span.Begin(), span.Begin()))
  {
    var c := db.cursor.value;
    BetweenSigned(c.at, c.bytes, c.epoch, s.at, s.bytes, s.epoch, s.interval);
    var span := SpanOf(c, s);
    FillSigned(db.buckets, span, span.Begin(), span.Begin());
  }

  lemma AppliedSigned(db: Db, s: Sample)
    requires Signed(db) && SampleValid(s) && Accepted(OutcomeOf(db, s))
    ensures Signed(Apply(db, s))
  {
    var filled := db;
    if db.cursor.Some? {
      FilledSigned(db, s);
      var span := SpanOf(db.cursor.value, s);
      filled := db.(buckets := Fill(db.buckets, span, span.Begin(), span.Begin()));
    }
    if s.connections.Some? {
      RecordDomainsSigned(filled, s);
    }
  }

  lemma PruneSigned(db: Db, now: nat)
    requires Signed(db)
    ensures Signed(Prune(db, now))
  {
  }

  /** A sample leaves no negative number in any table, whatever the counters did. */
  lemma RecordSigned(db: Db, s: Sample)
    requires Signed(db) && SampleValid(s)
    ensures Signed(Record(db, s))
  {
    if Accepted(OutcomeOf(db, s)) {
      AppliedSigned(db, s);
      PruneSigned(Apply(db, s), s.at);
    }
  }

  lemma {:induction false} ImportRowsSigned(t: Tables, rows: seq<BatchRow>, cut: int, n: nat)
    requires AllRows(t.buckets) && AllDomains(t.domainBuckets) && n <= |rows|
    requires forall i :: 0 <= i < |rows| ==> rows[i].bytes.NonNegative()
    ensures var done := ImportRows(t, rows, cut, n); AllRows(done.buckets) && AllDomains(done.domainBuckets)
  {
    if n > 0 {
      ImportRowsSigned(t, rows, cut, n - 1);
    }
  }

  lemma AppliedBatchSigned(db: Db, b: Batch)
    requires Signed(db) && 0 <= b.to && RowsNonNegative(b)
    ensures Signed(ApplyBatch(db, b))
  {
    var before := Tables(db.buckets, db.domainBuckets, Bytes(0, 0));
    var booked := ImportRows(before, b.rows, Cutoff(b.to), |b.rows|);
    var span := CoverageSpan(b);
    ImportRowsSigned(before, b.rows, Cutoff(b.to), |b.rows|);
    FillSigned(booked.buckets, span, span.Begin(), span.Begin());
    FillSamplingSigned(db.sampling, span, span.Begin(), span.delta, span.Begin());
  }

  lemma ImportSigned(db: Db, b: Batch)
    requires Signed(db) && 0 <= b.to && RowsNonNegative(b)
    ensures Signed(Import(db, b))
  {
    if ImportOutcome(db, b).Committed? {
      AppliedBatchSigned(db, b);
      PruneSigned(ApplyBatch(db, b), b.to);
    }
  }
}
