/** Where bytes and seconds land: bucket by bucket and domain by domain, in closed form. */
module Placement {
  import opened Sums
  import opened Allocation
  import opened Calendar
  import opened Ordering
  import opened Database
  import opened Journal

  // ---- the part of an interval that lies in a bucket ----

  function Lower(start: int, from: int): int { Max(start, from) }

  function Upper(start: int, to: int): int { Min(start + BUCKET, to) }

  /** The seconds that a bucket and an interval have in common. */
  function Overlap(start: int, from: int, to: int): int {
    Max(0, Upper(start, to) - Lower(start, from))
  }

  lemma FirstSlice(start: int, position: int, at: int)
    requires position < at && start % BUCKET == 0
    ensures start == BucketOf(position) ==>
              Lower(start, position) == position && Upper(start, at) == SliceEnd(position, at)
              && Overlap(start, position, at) == SliceEnd(position, at) - position
              && Overlap(start, SliceEnd(position, at), at) == 0
    ensures start != BucketOf(position) ==> Overlap(start, position, at) == Overlap(start, SliceEnd(position, at), at)
    ensures start != BucketOf(position) && Overlap(start, position, at) > 0 ==>
              Lower(start, position) == Lower(start, SliceEnd(position, at))
  {
    Floored(position);
    if start < BucketOf(position) {
      EarlierBucket(start, BucketOf(position));
    } else if start > BucketOf(position) {
      EarlierBucket(BucketOf(position), start);
    }
  }

  lemma EarlierBucket(a: int, b: int)
    requires a % BUCKET == 0 && b % BUCKET == 0 && a < b
    ensures a + BUCKET <= b
  {
  }

  /** The bytes of an interval that fall into a bucket. */
  function BytesIn(span: Span, b: Bytes, start: int, from: int): Bytes
    requires span.oldAt < span.at
  {
    if Overlap(start, from, span.at) > 0 then span.Share(b, Lower(start, from), Upper(start, span.at)) else Bytes(0, 0)
  }

  // ---- the totals ----

  /** A bucket after filling from a position: its share of bytes, its seconds, and the reset if it begins there. */
  ghost predicate Filled(before: Row, after: Row, span: Span, begin: int, position: int, start: int)
    requires span.oldAt < span.at
  {
    var seconds, bytes := Overlap(start, position, span.at), BytesIn(span, span.delta, start, position);
    && after.bytes.up == before.bytes.up + bytes.up && after.bytes.down == before.bytes.down + bytes.down
    && after.observed == before.observed + (if span.estimated then 0 else seconds)
    && after.estimated == before.estimated + (if span.estimated then seconds else 0)
    && after.resets == before.resets + (if span.reset && position == begin && BucketOf(begin) == start then 1 else 0)
  }

  lemma SliceFills(t: map<int, Row>, span: Span, begin: int, position: int, start: int)
    requires span.oldAt <= position < span.at && start == BucketOf(position) && start % BUCKET == 0
    ensures Filled(RowAt(t, start), RowAt(AddRow(t, start, span.RowFor(begin, position)), start), span, begin, position,
                   start)
  {
    FirstSlice(start, position, span.at);
    SliceAdvances(position, span.at);
  }

  lemma {:induction false} FillAt(t: map<int, Row>, span: Span, begin: int, position: int, start: int)
    requires span.oldAt <= position < span.at && begin <= position && start % BUCKET == 0
    ensures Filled(RowAt(t, start), RowAt(Fill(t, span, begin, position), start), span, begin, position, start)
    decreases span.at - position
  {
    var bucket, end := BucketOf(position), SliceEnd(position, span.at);
    var next := AddRow(t, bucket, span.RowFor(begin, position));
    SliceAdvances(position, span.at);
    FirstSlice(start, position, span.at);
    if start == bucket {
      SliceFills(t, span, begin, position, start);
    }
    if end < span.at {
      FillAt(next, span, begin, end, start);
    }
  }

  /** Which samples are refused, and which is the first. */
  lemma RecordDecides(db: Db, s: Sample)
    ensures var outcome, inRange := OutcomeOf(db, s), ValidCounter(s.bytes.up) && ValidCounter(s.bytes.down);
            && (outcome.InvalidCounter? <==> !inRange)
            && (outcome.Baseline? <==> inRange && db.cursor.None?)
            && (outcome.SourceChanged? <==> inRange && db.cursor.Some? && db.cursor.value.source != s.source)
            && (outcome.ClockNotAdvanced? <==> inRange && db.cursor.Some? && db.cursor.value.source == s.source
                                               && s.at <= db.cursor.value.at)
    ensures ValidTimes(db) && !Accepted(OutcomeOf(db, s)) ==> Record(db, s) == db
  {
  }

  /** What a sample is counted as: in full after a new source epoch or a decreased counter, else as the difference. */
  lemma CountedAs(db: Db, s: Sample)
    requires Accepted(OutcomeOf(db, s)) && db.cursor.Some?
    ensures var c, span := db.cursor.value, SpanOf(db.cursor.value, s);
            && span.oldAt == c.at && span.at == s.at && c.at < s.at
            && (OutcomeOf(db, s).Reset? <==> s.epoch != c.epoch || s.bytes.up < c.bytes.up || s.bytes.down < c.bytes.down)
            && (OutcomeOf(db, s).Gap? <==> !OutcomeOf(db, s).Reset? && s.at - c.at > 2 * s.interval)
            && span.delta == (if OutcomeOf(db, s).Reset? then s.bytes
                              else Bytes(s.bytes.up - c.bytes.up, s.bytes.down - c.bytes.down))
            && (span.reset <==> OutcomeOf(db, s).Reset?) && (span.estimated <==> !OutcomeOf(db, s).Ok?)
  {
  }

  lemma PrunedRow(db: Db, now: nat, start: int)
    requires Cutoff(now) <= start
    ensures RowAt(Prune(db, now).buckets, start) == RowAt(db.buckets, start)
  {
  }

  lemma PrunedDomain(db: Db, now: nat, key: Key)
    ensures At(Prune(db, now).domainBuckets, key) ==
              if Cutoff(now) <= key.start then At(db.domainBuckets, key) else Bytes(0, 0)
  {
  }

  lemma AppliedRows(db: Db, s: Sample)
    requires ValidTimes(db) && Accepted(OutcomeOf(db, s)) && db.cursor.Some?
    ensures var span := SpanOf(db.cursor.value, s);
            Apply(db, s).buckets == Fill(db.buckets, span, span.Begin(), span.Begin())
  {
  }

  /**
   Every bucket that retention keeps receives from a sample its own part of the delta and of the seconds after the
   boundary, as observed seconds after a normal sample and as estimated ones after a gap or a reset.
   */
  lemma RecordPlaces(db: Db, s: Sample, start: int)
    requires ValidTimes(db) && Accepted(OutcomeOf(db, s)) && db.cursor.Some?
    requires start % BUCKET == 0 && Cutoff(s.at) <= start
    ensures var span := SpanOf(db.cursor.value, s);
            && span.oldAt < span.at && 0 <= span.at
            && Filled(RowAt(db.buckets, start), RowAt(Record(db, s).buckets, start), span, span.Begin(), span.Begin(),
                      start)
  {
    var span := SpanOf(db.cursor.value, s);
    CutoffWindow(s.at);
    AppliedRows(db, s);
    FillAt(db.buckets, span, span.Begin(), span.Begin(), start);
    PrunedRow(Apply(db, s), s.at, start);
  }

  // ---- clipped bytes ----

  lemma {:induction false} ClippedAt(q: map<int, Sampling>, span: Span, begin: int, clipped: Bytes, position: int,
                                     start: int)
    requires span.oldAt <= position < span.at && start % BUCKET == 0
    ensures var bytes := BytesIn(span, clipped, start, position);
            var before := SamplingAt(q, start).clipped;
            SamplingAt(FillSampling(q, span, begin, clipped, position), start).clipped ==
              Bytes(before.up + bytes.up, before.down + bytes.down)
    decreases span.at - position
  {
    var bucket, end := BucketOf(position), SliceEnd(position, span.at);
    SliceAdvances(position, span.at);
    FirstSlice(start, position, span.at);
    if end < span.at {
      ClippedAt(AddSampling(q, bucket, span.SamplingFor(begin, position, clipped)), span, begin, clipped, end, start);
    }
  }

  // ---- domains ----

  lemma {:induction false} DealAt(t: map<Key, Bytes>, bucket: int, order: seq<string>, pieces: seq<Bytes>, n: nat,
                                  start: int, i: nat, dir: Direction)
    requires n <= |order| == |pieces| && i < |order| && Distinct(order)
    ensures At(Deal(t, bucket, order, pieces, n), Key(start, order[i])).Of(dir) ==
            At(t, Key(start, order[i])).Of(dir) + (if start == bucket && i < n then pieces[i].Of(dir) else 0)
  {
    if n > 0 {
      DealAt(t, bucket, order, pieces, n - 1, start, i, dir);
    }
  }

  lemma {:induction false} DealElsewhere(t: map<Key, Bytes>, bucket: int, order: seq<string>, pieces: seq<Bytes>, n: nat,
                                         key: Key)
    requires n <= |order| == |pieces| && key.domain !in order
    ensures At(Deal(t, bucket, order, pieces, n), key) == At(t, key)
  {
    if n > 0 {
      DealElsewhere(t, bucket, order, pieces, n - 1, key);
    }
  }

  /** A domain's part of the bytes that fall into a bucket. */
  function DomainPart(span: Span, usage: Usage, order: seq<string>, start: int, from: int, i: nat, dir: Direction): int
    requires span.oldAt < span.at && i < |order|
  {
    var vals := Column(usage, order, dir);
    Portion(BytesIn(span, span.delta, start, from).Of(dir), span.delta.Of(dir), Prefix(vals, i), vals[i])
  }

  lemma SliceAt(t: map<Key, Bytes>, span: Span, usage: Usage, order: seq<string>, position: int, start: int, i: nat,
                dir: Direction)
    requires span.oldAt <= position < span.at && i < |order| && Distinct(order) && start % BUCKET == 0
    ensures At(DealSlice(t, span, usage, order, position), Key(start, order[i])).Of(dir) ==
            At(t, Key(start, order[i])).Of(dir)
            + (if start == BucketOf(position) then DomainPart(span, usage, order, start, position, i, dir) else 0)
  {
    var budget := span.Share(span.delta, position, SliceEnd(position, span.at));
    var pieces := Pieces(budget, span.delta, usage, order);
    SliceAdvances(position, span.at);
    FirstSlice(start, position, span.at);
    DealAt(t, BucketOf(position), order, pieces, |order|, start, i, dir);
    assert pieces[i].Of(dir) == Apportion(budget.Of(dir), span.delta.Of(dir), Column(usage, order, dir))[i];
  }

  lemma NoPart(span: Span, usage: Usage, order: seq<string>, start: int, from: int, i: nat, dir: Direction)
    requires span.oldAt < span.at && i < |order| && Overlap(start, from, span.at) == 0
    ensures DomainPart(span, usage, order, start, from, i, dir) == 0
  {
  }

  lemma SamePart(span: Span, usage: Usage, order: seq<string>, start: int, position: int, i: nat, dir: Direction)
    requires span.oldAt <= position < span.at && i < |order| && start % BUCKET == 0 && start != BucketOf(position)
    ensures DomainPart(span, usage, order, start, position, i, dir) ==
            DomainPart(span, usage, order, start, SliceEnd(position, span.at), i, dir)
  {
    FirstSlice(start, position, span.at);
  }

  /** Filling gives every domain its part in every bucket. */
  lemma {:induction false} DomainAt(t: map<Key, Bytes>, span: Span, usage: Usage, order: seq<string>, position: int,
                                    start: int, i: nat, dir: Direction)
    requires span.oldAt <= position <= span.at && span.oldAt < span.at && i < |order| && Distinct(order)
    requires start % BUCKET == 0
    ensures At(FillDomains(t, span, usage, order, position), Key(start, order[i])).Of(dir) ==
            At(t, Key(start, order[i])).Of(dir) + DomainPart(span, usage, order, start, position, i, dir)
    decreases span.at - position
  {
    if position == span.at {
      NoPart(span, usage, order, start, position, i, dir);
    } else {
      var end := SliceEnd(position, span.at);
      SliceAdvances(position, span.at);
      SliceAt(t, span, usage, order, position, start, i, dir);
      DomainAt(DealSlice(t, span, usage, order, position), span, usage, order, end, start, i, dir);
      if start == BucketOf(position) {
        FirstSlice(start, position, span.at);
        NoPart(span, usage, order, start, end, i, dir);
      } else {
        SamePart(span, usage, order, start, position, i, dir);
      }
    }
  }

  lemma {:induction false} DomainElsewhere(t: map<Key, Bytes>, span: Span, usage: Usage, order: seq<string>, position: int,
                                           key: Key)
    requires span.oldAt <= position && key.domain !in order
    ensures At(FillDomains(t, span, usage, order, position), key) == At(t, key)
    decreases span.at - position
  {
    if position < span.at {
      SliceAdvances(position, span.at);
      var budget := span.Share(span.delta, position, SliceEnd(position, span.at));
      DealElsewhere(t, BucketOf(position), order, Pieces(budget, span.delta, usage, order), |order|, key);
      DomainElsewhere(DealSlice(t, span, usage, order, position), span, usage, order, SliceEnd(position, span.at), key);
    }
  }

  /** Bytes booked for a domain in a bucket miss its exact share of the bucket's bytes by less than one. */
  ghost predicate Proportional(got: int, budget: int, usage: int, total: int) {
    if total == 0 then got == 0 else budget * usage - total < total * got < budget * usage + total
  }

  lemma PartIsProportional(span: Span, usage: Usage, order: seq<string>, start: int, from: int, i: nat, dir: Direction)
    requires span.oldAt < span.at && i < |order| && 0 <= span.delta.Of(dir)
    ensures Proportional(DomainPart(span, usage, order, start, from, i, dir),
                         BytesIn(span, span.delta, start, from).Of(dir), At(usage, order[i]).Of(dir), span.delta.Of(dir))
  {
    var vals := Column(usage, order, dir);
    if span.delta.Of(dir) > 0 {
      PortionRounding(BytesIn(span, span.delta, start, from).Of(dir), span.delta.Of(dir), Prefix(vals, i), vals[i]);
    }
  }

  /** What a bucket receives for a domain: its proportional part, and nothing for a domain without usage. */
  ghost predicate Placed(got: int, span: Span, usage: Usage, domain: string, start: int, dir: Direction)
    requires span.oldAt < span.at && 0 <= span.at
  {
    if domain in usage
    then Proportional(got, BytesIn(span, span.delta, start, span.Begin()).Of(dir), usage[domain].Of(dir),
                      span.delta.Of(dir))
    else got == 0
  }

  /** What a table gained under a key. */
  function Gain(before: map<Key, Bytes>, after: map<Key, Bytes>, key: Key, dir: Direction): int {
    At(after, key).Of(dir) - At(before, key).Of(dir)
  }

  lemma SameProportion(got: int, part: int, budget: int, usage: int, total: int)
    requires got == part && Proportional(part, budget, usage, total)
    ensures Proportional(got, budget, usage, total)
  {
  }

  lemma MemberPlaces(t: map<Key, Bytes>, span: Span, usage: Usage, order: seq<string>, begin: int, i: nat, start: int,
                     dir: Direction, gain: int)
    requires span.oldAt <= begin <= span.at && span.oldAt < span.at && i < |order| && Distinct(order)
    requires start % BUCKET == 0 && 0 <= span.delta.Of(dir)
    requires gain == Gain(t, FillDomains(t, span, usage, order, begin), Key(start, order[i]), dir)
    ensures Proportional(gain, BytesIn(span, span.delta, start, begin).Of(dir), At(usage, order[i]).Of(dir),
                         span.delta.Of(dir))
  {
    DomainAt(t, span, usage, order, begin, start, i, dir);
    PartIsProportional(span, usage, order, start, begin, i, dir);
    SameProportion(gain, DomainPart(span, usage, order, start, begin, i, dir),
                   BytesIn(span, span.delta, start, begin).Of(dir), At(usage, order[i]).Of(dir), span.delta.Of(dir));
  }

  /**
   In every bucket a domain of the attributed usage is booked its proportional part of the bucket's bytes, to within
   less than one byte, and any other domain nothing.
   */
  lemma DomainPlaces(t: map<Key, Bytes>, span: Span, usage: Usage, order: seq<string>, domain: string, start: int,
                     dir: Direction, gain: int)
    requires span.oldAt < span.at && 0 <= span.at && start % BUCKET == 0 && 0 <= span.delta.Of(dir)
    requires order == SortedNames(usage.Keys) && span.oldAt <= span.Begin()
    requires gain == Gain(t, FillDomains(t, span, usage, order, span.Begin()), Key(start, domain), dir)
    ensures Placed(gain, span, usage, domain, start, dir)
  {
    CutoffWindow(span.at);
    if domain in usage {
      assert domain in order;
      var i :| 0 <= i < |order| && order[i] == domain;
      MemberPlaces(t, span, usage, order, span.Begin(), i, start, dir, gain);
    } else {
      DomainElsewhere(t, span, usage, order, span.Begin(), Key(start, domain));
    }
  }

  /** The interval of the domain tables, and the usage attributed in it. */
  ghost predicate Attributed(db: Db, s: Sample, span: Span, usage: Usage)
    requires s.connections.Some? && db.domainState.Some?
  {
    var prev := db.domainState.value;
    && span == Between(prev.at, prev.bytes, prev.epoch, s.at, s.bytes, s.epoch, s.interval)
    && usage == Attribute(SnapshotUsage(db, s, span), span.delta)
  }

  lemma BeginsLater(span: Span)
    requires 0 <= span.at
    ensures span.oldAt <= span.Begin()
  {
  }

  lemma RecordedDomains(db: Db, s: Sample, span: Span, usage: Usage)
    requires s.connections.Some? && db.domainState.Some? && 0 <= db.domainState.value.at < s.at
    requires Attributed(db, s, span, usage) && span.at == s.at && span.oldAt <= span.Begin()
    ensures RecordDomains(db, s).domainBuckets ==
              FillDomains(db.domainBuckets, span, usage, SortedNames(usage.Keys), span.Begin())
  {
  }

  lemma AppliedDomains(db: Db, s: Sample, span: Span, usage: Usage)
    requires ValidTimes(db) && Accepted(OutcomeOf(db, s)) && s.connections.Some?
    requires db.domainState.Some? && db.domainState.value.at < s.at && Attributed(db, s, span, usage)
    ensures span.oldAt <= span.Begin()
    ensures Apply(db, s).domainBuckets ==
              FillDomains(db.domainBuckets, span, usage, SortedNames(usage.Keys), span.Begin())
  {
    var filled := db;
    if db.cursor.Some? {
      var total := SpanOf(db.cursor.value, s);
      filled := db.(buckets := Fill(db.buckets, total, total.Begin(), total.Begin()));
    }
    assert Attributed(filled, s, span, usage);
    BeginsLater(span);
    RecordedDomains(filled, s, span, usage);
    assert Apply(db, s).domainBuckets == RecordDomains(filled, s).domainBuckets;
  }

  /** So does a sample with a snapshot in every bucket that retention keeps. */
  lemma RecordPlacesDomains(db: Db, s: Sample, span: Span, usage: Usage, domain: string, start: int, dir: Direction)
    requires ValidTimes(db) && Accepted(OutcomeOf(db, s)) && s.connections.Some?
    requires db.domainState.Some? && db.domainState.value.at < s.at && Attributed(db, s, span, usage)
    requires start % BUCKET == 0 && Cutoff(s.at) <= start && 0 <= span.delta.Of(dir)
    ensures span.oldAt < span.at == s.at
    ensures Placed(Gain(db.domainBuckets, Record(db, s).domainBuckets, Key(start, domain), dir), span, usage, domain,
                   start, dir)
  {
    AppliedDomains(db, s, span, usage);
    PrunedDomain(Apply(db, s), s.at, Key(start, domain));
    DomainPlaces(db.domainBuckets, span, usage, SortedNames(usage.Keys), domain, start, dir,
                 Gain(db.domainBuckets, Record(db, s).domainBuckets, Key(start, domain), dir));
  }

  // ---- imported rows ----

  /** The bytes of the first n rows of a batch for one domain in one bucket. */
  function RowsOf(rows: seq<BatchRow>, key: Key, dir: Direction, n: nat): int
    requires n <= |rows|
  {
    if n == 0 then 0
    else RowsOf(rows, key, dir, n - 1) + (if RowKeyOf(rows[n - 1]) == key then rows[n - 1].bytes.Of(dir) else 0)
  }

  lemma {:induction false} RowsLand(t: Tables, rows: seq<BatchRow>, cut: int, n: nat, key: Key, dir: Direction)
    requires n <= |rows|
    ensures At(ImportRows(t, rows, cut, n).domainBuckets, key).Of(dir) ==
            At(t.domainBuckets, key).Of(dir) + (if cut <= key.start then RowsOf(rows, key, dir, n) else 0)
  {
    if n > 0 {
      RowsLand(t, rows, cut, n - 1, key, dir);
    }
  }

  /**
   A committed batch books, for every domain in every bucket that retention keeps, exactly the sum of its rows for
   that domain in that bucket; any other import changes nothing.
   */
  lemma ImportPlaces(db: Db, b: Batch, key: Key, dir: Direction)
    requires 0 <= b.to
    ensures At(Import(db, b).domainBuckets, key).Of(dir) ==
              if !ImportOutcome(db, b).Committed? then At(db.domainBuckets, key).Of(dir)
              else if key.start < Cutoff(b.to) then 0
              else At(db.domainBuckets, key).Of(dir) + RowsOf(b.rows, key, dir, |b.rows|)
  {
    if ImportOutcome(db, b).Committed? {
      RowsLand(Tables(db.buckets, db.domainBuckets, Bytes(0, 0)), b.rows, Cutoff(b.to), |b.rows|, key, dir);
      PrunedDomain(ApplyBatch(db, b), b.to, key);
    }
  }

  /** The seconds of its interval are covered as observed in every bucket that retention keeps. */
  lemma ImportCoversSeconds(db: Db, b: Batch, start: int)
    requires ImportOutcome(db, b).Committed? && 0 <= b.to && b.from < b.to
    requires start % BUCKET == 0 && Cutoff(b.to) <= start
    ensures var before, after := RowAt(db.buckets, start), RowAt(Import(db, b).buckets, start);
            && after.observed == before.observed + Overlap(start, Max(b.from, Cutoff(b.to)), b.to)
            && after.estimated == before.estimated && after.resets == before.resets
  {
    var booked := ImportRows(Tables(db.buckets, db.domainBuckets, Bytes(0, 0)), b.rows, Cutoff(b.to), |b.rows|);
    var span := CoverageSpan(b);
    CutoffWindow(b.to);
    RowsKeepSeconds(Tables(db.buckets, db.domainBuckets, Bytes(0, 0)), b.rows, Cutoff(b.to), |b.rows|, start);
    FillAt(booked.buckets, span, span.Begin(), span.Begin(), start);
    PrunedRow(ApplyBatch(db, b), b.to, start);
  }

  lemma {:induction false} RowsKeepSeconds(t: Tables, rows: seq<BatchRow>, cut: int, n: nat, start: int)
    requires n <= |rows|
    ensures var before, after := RowAt(t.buckets, start), RowAt(ImportRows(t, rows, cut, n).buckets, start);
            after.observed == before.observed && after.estimated == before.estimated && after.resets == before.resets
  {
    if n > 0 {
      RowsKeepSeconds(t, rows, cut, n - 1, start);
    }
  }
}
