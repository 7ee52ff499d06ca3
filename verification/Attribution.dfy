/**
 Attribution by domain: the two allocators agree bucket by bucket, capping is fair, and
 a domain's rounding error is bounded by the number of buckets its bytes were spread over.
 */
module Attribution {
  import opened Sums
  import opened Allocation
  import opened Calendar
  import opened Ordering
  import opened Database

  // ---- a dictionary and its columns ----

  lemma {:induction false} PrefixSame(a: seq<int>, b: seq<int>, n: nat)
    requires n <= |a| && n <= |b| && forall i :: 0 <= i < n ==> a[i] == b[i]
    ensures Prefix(a, n) == Prefix(b, n)
  {
    if n > 0 {
      PrefixSame(a, b, n - 1);
    }
  }

  /** The sum over a dictionary does not depend on the order its domains are visited in. */
  lemma {:induction false} ColumnSum(usage: Usage, order: seq<string>, dir: Direction)
    requires Enumerates(order, usage.Keys)
    ensures Total(Column(usage, order, dir)) == Sum(usage, dir)
    decreases |order|
  {
    var n := |order|;
    if n == 0 {
      assert usage.Keys == {};
      assert usage == map[];
    } else {
      var last, front := order[n - 1], order[..n - 1];
      var rest := usage - {last};
      EnumeratesFront(order, usage.Keys);
      assert rest.Keys == usage.Keys - {last};
      ColumnSum(rest, front, dir);
      ColumnFront(usage, order, dir);
      SumTake(usage, dir, last);
    }
  }

  lemma ColumnFront(usage: Usage, order: seq<string>, dir: Direction)
    requires order != [] && Distinct(order)
    ensures var n := |order|;
            Total(Column(usage, order, dir)) ==
            Total(Column(usage - {order[n - 1]}, order[..n - 1], dir)) + At(usage, order[n - 1]).Of(dir)
  {
    var n := |order|;
    PrefixSame(Column(usage, order, dir), Column(usage - {order[n - 1]}, order[..n - 1], dir), n - 1);
  }

  lemma UsageSum(usage: Usage, dir: Direction)
    ensures UsageTotal(usage, dir) == Sum(usage, dir)
  {
    assert Elements(SortedNames(usage.Keys)) == usage.Keys;
    ColumnSum(usage, SortedNames(usage.Keys), dir);
  }

  /** Assigning a column touches that column only. */
  lemma {:induction false} Assigned(usage: Usage, order: seq<string>, dir: Direction, vals: seq<int>, n: nat)
    requires n <= |order| == |vals| && Distinct(order) && forall k :: k in order ==> k in usage
    ensures var done := Assign(usage, order, dir, vals, n);
            && done.Keys == usage.Keys
            && (forall i :: 0 <= i < n ==> done[order[i]] == usage[order[i]].With(dir, vals[i]))
            && (forall i :: n <= i < |order| ==> done[order[i]] == usage[order[i]])
  {
    if n > 0 {
      Assigned(usage, order, dir, vals, n - 1);
      assert order[n - 1] in order;
    }
  }

  /** The next domain still has its value. */
  lemma AssignedNext(usage: Usage, order: seq<string>, dir: Direction, vals: seq<int>, n: nat)
    requires n < |order| == |vals| && Distinct(order) && forall k :: k in order ==> k in usage
    ensures var done := Assign(usage, order, dir, vals, n);
            order[n] in done && done[order[n]].Of(dir) == Column(usage, order, dir)[n]
  {
    assert order[n] in order;
    Assigned(usage, order, dir, vals, n);
  }

  function Other(dir: Direction): Direction {
    if dir.Upload? then Download else Upload
  }

  ghost predicate AllNonNegative(usage: Usage) {
    forall d :: d in usage ==> usage[d].NonNegative()
  }

  lemma ColumnNonNegative(usage: Usage, dir: Direction)
    requires AllNonNegative(usage)
    ensures NonNegative(Column(usage, SortedNames(usage.Keys), dir))
  {
    var order := SortedNames(usage.Keys);
    forall i | 0 <= i < |order| ensures 0 <= Column(usage, order, dir)[i] { assert order[i] in order; }
  }

  /** Capping one direction, domain by domain. */
  lemma CapEach(usage: Usage, dir: Direction, budget: int, d: string)
    requires 0 <= budget && AllNonNegative(usage) && d in usage
    ensures var capped := CapDirection(usage, dir, budget);
            && d in capped
            && 0 <= capped[d].Of(dir) <= usage[d].Of(dir)
            && capped[d].Of(Other(dir)) == usage[d].Of(Other(dir))
  {
    var order := SortedNames(usage.Keys);
    var vals := Column(usage, order, dir);
    assert d in order;
    var i :| 0 <= i < |order| && order[i] == d;
    assert 0 <= Capped(vals, budget)[i] <= vals[i] by {
      ColumnNonNegative(usage, dir);
      CapCorrect(vals, budget);
    }
    if Total(vals) > budget {
      Assigned(usage, order, dir, Capped(vals, budget), |order|);
    }
  }

  lemma CapKeys(usage: Usage, dir: Direction, budget: int)
    requires 0 <= budget && AllNonNegative(usage)
    ensures CapDirection(usage, dir, budget).Keys == usage.Keys
    ensures AllNonNegative(CapDirection(usage, dir, budget))
  {
    var order := SortedNames(usage.Keys);
    Assigned(usage, order, dir, Capped(Column(usage, order, dir), budget), |order|);
    var capped := CapDirection(usage, dir, budget);
    forall d | d in capped ensures capped[d].NonNegative() {
      CapEach(usage, dir, budget, d);
    }
  }

  lemma AssignedColumns(usage: Usage, order: seq<string>, dir: Direction, vals: seq<int>)
    requires |order| == |vals| && Distinct(order) && forall k :: k in order ==> k in usage
    ensures Column(Assign(usage, order, dir, vals, |order|), order, dir) == vals
    ensures Column(Assign(usage, order, dir, vals, |order|), order, Other(dir)) == Column(usage, order, Other(dir))
  {
    Assigned(usage, order, dir, vals, |order|);
    var done := Assign(usage, order, dir, vals, |order|);
    forall i | 0 <= i < |order| ensures At(done, order[i]) == usage[order[i]].With(dir, vals[i]) {
      assert order[i] in order;
    }
  }

  lemma CappedColumns(usage: Usage, dir: Direction, budget: int)
    requires 0 <= budget && AllNonNegative(usage)
    ensures var order, capped := SortedNames(usage.Keys), CapDirection(usage, dir, budget);
            && SortedNames(capped.Keys) == order
            && Column(capped, order, dir) == Capped(Column(usage, order, dir), budget)
            && Column(capped, order, Other(dir)) == Column(usage, order, Other(dir))
  {
    CapKeys(usage, dir, budget);
    var order := SortedNames(usage.Keys);
    AssignedColumns(usage, order, dir, Capped(Column(usage, order, dir), budget));
  }

  /** Capping one direction, in all. */
  lemma CapTotals(usage: Usage, dir: Direction, budget: int)
    requires 0 <= budget && AllNonNegative(usage)
    ensures UsageTotal(CapDirection(usage, dir, budget), dir) == Min(UsageTotal(usage, dir), budget)
    ensures UsageTotal(CapDirection(usage, dir, budget), Other(dir)) == UsageTotal(usage, Other(dir))
  {
    CappedColumns(usage, dir, budget);
    ColumnNonNegative(usage, dir);
    CapCorrect(Column(usage, SortedNames(usage.Keys), dir), budget);
  }

  lemma CapDirectionKeys(usage: Usage, dir: Direction, budget: int)
    ensures CapDirection(usage, dir, budget).Keys == usage.Keys
  {
    var order := SortedNames(usage.Keys);
    Assigned(usage, order, dir, Capped(Column(usage, order, dir), budget), |order|);
  }

  /** Capping one direction leaves the other column as it was. */
  lemma OtherDirectionKept(usage: Usage, dir: Direction, budget: int)
    ensures UsageTotal(CapDirection(usage, dir, budget), Other(dir)) == UsageTotal(usage, Other(dir))
  {
    CapDirectionKeys(usage, dir, budget);
    var order := SortedNames(usage.Keys);
    AssignedColumns(usage, order, dir, Capped(Column(usage, order, dir), budget));
  }

  ghost predicate UsageValid(usage: Usage) {
    UNATTRIBUTED !in usage && AllNonNegative(usage)
  }

  lemma KeptEach(usage: Usage, delta: Bytes, d: string)
    requires AllNonNegative(usage) && delta.NonNegative() && d in usage
    ensures d in CappedUsage(usage, delta)
    ensures 0 <= CappedUsage(usage, delta)[d].up <= usage[d].up
    ensures 0 <= CappedUsage(usage, delta)[d].down <= usage[d].down
  {
    var once := CapDirection(usage, Upload, delta.up);
    CapKeys(usage, Upload, delta.up);
    CapEach(usage, Upload, delta.up, d);
    CapEach(once, Download, delta.down, d);
  }

  lemma KeptTotals(usage: Usage, delta: Bytes, dir: Direction)
    requires AllNonNegative(usage) && delta.NonNegative()
    ensures CappedUsage(usage, delta).Keys == usage.Keys
    ensures UsageTotal(CappedUsage(usage, delta), dir) == Min(UsageTotal(usage, dir), delta.Of(dir))
  {
    var once := CapDirection(usage, Upload, delta.up);
    CapKeys(usage, Upload, delta.up);
    CapKeys(once, Download, delta.down);
    CapTotals(usage, Upload, delta.up);
    CapTotals(once, Download, delta.down);
  }

  /** Clipped plus kept is what was observed, as long as the clipped column does not saturate. */
  lemma ClippedPlusKept(usage: Usage, delta: Bytes, dir: Direction)
    requires UsageValid(usage) && delta.NonNegative()
    requires UsageTotal(usage, dir) - delta.Of(dir) <= MAX_COUNTER
    ensures ClippedBytes(usage, delta).Of(dir) + UsageTotal(CappedUsage(usage, delta), dir) == UsageTotal(usage, dir)
  {
    KeptTotals(usage, delta, dir);
  }

  /** Kept usage adds up to min(observed, delta) and no domain exceeds what was observed for it. */
  lemma CapIsFair(usage: Usage, delta: Bytes, dir: Direction)
    requires UsageValid(usage) && delta.NonNegative()
    ensures UsageTotal(CappedUsage(usage, delta), dir) == Min(UsageTotal(usage, dir), delta.Of(dir))
    ensures CappedUsage(usage, delta).Keys == usage.Keys
    ensures forall d :: d in usage ==> 0 <= CappedUsage(usage, delta)[d].Of(dir) <= usage[d].Of(dir)
  {
    KeptTotals(usage, delta, dir);
    forall d | d in usage ensures 0 <= CappedUsage(usage, delta)[d].Of(dir) <= usage[d].Of(dir) {
      KeptEach(usage, delta, d);
    }
  }

  lemma RemainderNonNegative(usage: Usage, delta: Bytes)
    requires UsageValid(usage) && delta.NonNegative()
    ensures Remainder(CappedUsage(usage, delta), delta).NonNegative()
  {
    KeptTotals(usage, delta, Upload);
    KeptTotals(usage, delta, Download);
  }

  lemma KeptValid(usage: Usage, delta: Bytes)
    requires UsageValid(usage) && delta.NonNegative()
    ensures UsageValid(CappedUsage(usage, delta)) && CappedUsage(usage, delta).Keys == usage.Keys
  {
    KeptTotals(usage, delta, Upload);
    var kept := CappedUsage(usage, delta);
    forall d | d in kept ensures kept[d].NonNegative() { KeptEach(usage, delta, d); }
  }

  /** The attributed dictionary adds up to the delta exactly. */
  lemma AttributionExact(usage: Usage, delta: Bytes, dir: Direction)
    requires UsageValid(usage) && delta.NonNegative()
    ensures UsageTotal(Attribute(usage, delta), dir) == delta.Of(dir)
  {
    var kept := CappedUsage(usage, delta);
    KeptValid(usage, delta);
    Booked(kept, Remainder(kept, delta), dir);
    assert Remainder(kept, delta).Of(dir) == delta.Of(dir) - UsageTotal(kept, dir);
  }

  /** It holds the observed domains and a remainder, none of them negative. */
  lemma AttributionKeys(usage: Usage, delta: Bytes)
    requires UsageValid(usage) && delta.NonNegative()
    ensures Attribute(usage, delta).Keys == usage.Keys + {UNATTRIBUTED}
    ensures AllNonNegative(Attribute(usage, delta))
  {
    KeptValid(usage, delta);
    RemainderNonNegative(usage, delta);
  }

  /** Booking an amount under a new domain. */
  lemma Booked(kept: Usage, rest: Bytes, dir: Direction)
    requires UNATTRIBUTED !in kept
    ensures UsageTotal(kept[UNATTRIBUTED := rest], dir) == UsageTotal(kept, dir) + rest.Of(dir)
  {
    var done := Upsert(kept, UNATTRIBUTED, rest);
    assert done == kept[UNATTRIBUTED := rest];
    SumUpsert(kept, dir, UNATTRIBUTED, rest);
    UsageSum(kept, dir);
    UsageSum(done, dir);
  }

  /** Raw usage only holds the domains of the snapshot and non-negative bytes. */
  lemma {:induction false} TallyValid(prior: map<string, Checkpoint>, conns: seq<Connection>, oldAt: int, at: int, n: nat)
    requires n <= |conns| && ConnectionsValid(conns)
    ensures UsageValid(Tally(prior, conns, oldAt, at, n))
  {
    if n > 0 {
      TallyValid(prior, conns, oldAt, at, n - 1);
    }
  }

  /** What `connection_samples` delivers: counters in range, real domains, no key twice. */
  ghost predicate ConnectionsValid(conns: seq<Connection>) {
    && (forall i :: 0 <= i < |conns| ==> ValidCounters(conns[i].bytes) && conns[i].domain != UNATTRIBUTED)
    && (forall i, j :: 0 <= i < j < |conns| ==> conns[i].key != conns[j].key)
  }

  // ---- bucket by bucket agreement of the two totals ----

  ghost function InBucket(start: int): Key -> bool { (k: Key) => k.start == start }

  /** The bytes of all domains in one bucket. */
  ghost function DomainSum(t: map<Key, Bytes>, start: int, dir: Direction): int {
    Sum(Where(t, InBucket(start)), dir)
  }

  lemma AddDomainSum(t: map<Key, Bytes>, key: Key, b: Bytes, start: int, dir: Direction)
    ensures DomainSum(AddDomain(t, key, b), start, dir) ==
            DomainSum(t, start, dir) + (if key.start == start then b.Of(dir) else 0)
  {
    SumUpsertWhere(t, dir, key, b, InBucket(start));
  }

  /** The first n pieces in one direction. */
  function PiecesTotal(pieces: seq<Bytes>, dir: Direction, n: nat): int
    requires n <= |pieces|
  {
    if n == 0 then 0 else PiecesTotal(pieces, dir, n - 1) + pieces[n - 1].Of(dir)
  }

  lemma {:induction false} DealSum(t: map<Key, Bytes>, bucket: int, order: seq<string>, pieces: seq<Bytes>, n: nat,
                                   start: int, dir: Direction)
    requires n <= |order| == |pieces|
    ensures DomainSum(Deal(t, bucket, order, pieces, n), start, dir) ==
            DomainSum(t, start, dir) + (if start == bucket then PiecesTotal(pieces, dir, n) else 0)
  {
    if n > 0 {
      DealSum(t, bucket, order, pieces, n - 1, start, dir);
      AddDomainSum(Deal(t, bucket, order, pieces, n - 1), Key(bucket, order[n - 1]), pieces[n - 1], start, dir);
    }
  }

  lemma {:induction false} PiecesColumn(pieces: seq<Bytes>, vals: seq<int>, dir: Direction, n: nat)
    requires n <= |pieces| == |vals| && forall i :: 0 <= i < |pieces| ==> pieces[i].Of(dir) == vals[i]
    ensures PiecesTotal(pieces, dir, n) == Prefix(vals, n)
  {
    if n > 0 {
      PiecesColumn(pieces, vals, dir, n - 1);
    }
  }

  /** The pieces of a budget add up to it. */
  lemma PiecesExact(budget: Bytes, delta: Bytes, usage: Usage, order: seq<string>, dir: Direction)
    requires 0 <= delta.Of(dir) && Total(Column(usage, order, dir)) == delta.Of(dir)
    ensures PiecesTotal(Pieces(budget, delta, usage, order), dir, |order|) ==
            if delta.Of(dir) == 0 then 0 else budget.Of(dir)
  {
    var vals := Apportion(budget.Of(dir), delta.Of(dir), Column(usage, order, dir));
    PiecesColumn(Pieces(budget, delta, usage, order), vals, dir, |order|);
    ApportionExact(budget.Of(dir), delta.Of(dir), Column(usage, order, dir));
  }

  /** A slice is handed out completely. */
  lemma SliceDealt(t: map<Key, Bytes>, span: Span, usage: Usage, order: seq<string>, position: int,
                   start: int, dir: Direction)
    requires span.oldAt <= position < span.at && span.delta.NonNegative()
    requires Total(Column(usage, order, dir)) == span.delta.Of(dir)
    ensures DomainSum(DealSlice(t, span, usage, order, position), start, dir) ==
            DomainSum(t, start, dir) +
            (if start == BucketOf(position)
             then span.Share(span.delta, position, SliceEnd(position, span.at)).Of(dir) else 0)
  {
    var budget := span.Share(span.delta, position, SliceEnd(position, span.at));
    var pieces := Pieces(budget, span.delta, usage, order);
    DealSum(t, BucketOf(position), order, pieces, |order|, start, dir);
    PiecesExact(budget, span.delta, usage, order, dir);
    if span.delta.Of(dir) == 0 {
      ShareOfNothing(span, position, SliceEnd(position, span.at), dir);
    }
  }

  lemma ShareOfNothing(span: Span, left: int, right: int, dir: Direction)
    requires span.oldAt < span.at && span.delta.Of(dir) == 0
    ensures span.Share(span.delta, left, right).Of(dir) == 0
  {
  }

  ghost predicate MatchAt(b: map<int, Row>, t: map<Key, Bytes>, q: map<int, Sampling>, start: int) {
    var row, sampling := RowAt(b, start), SamplingAt(q, start);
    && (forall dir: Direction :: DomainSum(t, start, dir) == row.bytes.Of(dir))
    && sampling.observed == row.observed && sampling.estimated == row.estimated && sampling.resets == row.resets
  }

  ghost predicate Match(b: map<int, Row>, t: map<Key, Bytes>, q: map<int, Sampling>) {
    forall start :: MatchAt(b, t, q, start)
  }

  lemma AddRowBytes(b: map<int, Row>, bucket: int, row: Row, start: int, dir: Direction)
    ensures RowAt(AddRow(b, bucket, row), start).bytes.Of(dir) ==
            RowAt(b, start).bytes.Of(dir) + (if start == bucket then row.bytes.Of(dir) else 0)
  {
  }

  lemma MatchSlice(b: map<int, Row>, t: map<Key, Bytes>, q: map<int, Sampling>, span: Span, usage: Usage,
                   order: seq<string>, begin: int, clipped: Bytes, position: int)
    requires Match(b, t, q)
    requires span.oldAt <= position < span.at && span.delta.NonNegative()
    requires forall dir: Direction :: Total(Column(usage, order, dir)) == span.delta.Of(dir)
    ensures var bucket, end := BucketOf(position), SliceEnd(position, span.at);
            Match(AddRow(b, bucket, span.RowFor(begin, position)),
                  DealSlice(t, span, usage, order, position),
                  AddSampling(q, bucket, span.SamplingFor(begin, position, clipped)))
  {
    var bucket, end := BucketOf(position), SliceEnd(position, span.at);
    var b', t', q' := AddRow(b, bucket, span.RowFor(begin, position)),
                      DealSlice(t, span, usage, order, position),
                      AddSampling(q, bucket, span.SamplingFor(begin, position, clipped));
    forall start ensures MatchAt(b', t', q', start) {
      assert MatchAt(b, t, q, start);
      forall dir: Direction ensures DomainSum(t', start, dir) == RowAt(b', start).bytes.Of(dir) {
        SliceSums(b, t, q, span, usage, order, begin, position, start, dir);
      }
    }
  }

  lemma SliceSums(b: map<int, Row>, t: map<Key, Bytes>, q: map<int, Sampling>, span: Span, usage: Usage,
                  order: seq<string>, begin: int, position: int, start: int, dir: Direction)
    requires MatchAt(b, t, q, start) && span.oldAt <= position < span.at && span.delta.NonNegative()
    requires Total(Column(usage, order, dir)) == span.delta.Of(dir)
    ensures DomainSum(DealSlice(t, span, usage, order, position), start, dir) ==
            RowAt(AddRow(b, BucketOf(position), span.RowFor(begin, position)), start).bytes.Of(dir)
  {
    SliceDealt(t, span, usage, order, position, start, dir);
    assert DomainSum(t, start, dir) == RowAt(b, start).bytes.Of(dir);
    AddRowBytes(b, BucketOf(position), span.RowFor(begin, position), start, dir);
  }

  lemma {:induction false} MatchFill(b: map<int, Row>, t: map<Key, Bytes>, q: map<int, Sampling>, span: Span,
                                     usage: Usage, order: seq<string>, begin: int, clipped: Bytes, position: int)
    requires Match(b, t, q)
    requires span.oldAt <= position && span.delta.NonNegative()
    requires forall dir: Direction :: Total(Column(usage, order, dir)) == span.delta.Of(dir)
    ensures Match(Fill(b, span, begin, position), FillDomains(t, span, usage, order, position),
                  FillSampling(q, span, begin, clipped, position))
    decreases span.at - position
  {
    if position < span.at {
      SliceAdvances(position, span.at);
      MatchSlice(b, t, q, span, usage, order, begin, clipped, position);
      var bucket, end := BucketOf(position), SliceEnd(position, span.at);
      MatchFill(AddRow(b, bucket, span.RowFor(begin, position)),
                DealSlice(t, span, usage, order, position),
                AddSampling(q, bucket, span.SamplingFor(begin, position, clipped)),
                span, usage, order, begin, clipped, end);
    }
  }

  lemma PruneDomainSum(t: map<Key, Bytes>, cut: int, start: int)
    ensures var kept := map k | k in t && k.start >= cut :: t[k];
            Where(kept, InBucket(start)) == if start >= cut then Where(t, InBucket(start)) else map[]
  {
  }

  /** The database-level form: the same cursor on both sides, and every bucket in agreement. */
  ghost predicate Agrees(db: Db) {
    && ValidTimes(db)
    && (db.cursor.None? <==> db.domainState.None?)
    && (db.cursor.Some? ==>
          var c, d := db.cursor.value, db.domainState.value;
          c.at == d.at && c.bytes == d.bytes && c.epoch == d.epoch)
    && (db.cursor.Some? ==> db.cursor.value.bytes.NonNegative())
    && Match(db.buckets, db.domainBuckets, db.sampling)
  }

  lemma PruneAgrees(db: Db, now: nat)
    requires Agrees(db)
    ensures Agrees(Prune(db, now))
  {
    var p := Prune(db, now);
    var cut := Cutoff(now);
    forall start ensures MatchAt(p.buckets, p.domainBuckets, p.sampling, start) {
      assert MatchAt(db.buckets, db.domainBuckets, db.sampling, start);
      PruneDomainSum(db.domainBuckets, cut, start);
    }
  }

  ghost predicate SampleValid(s: Sample) {
    s.connections.Some? ==> ConnectionsValid(s.connections.value)
  }

  lemma SpanAgrees(db: Db, s: Sample)
    requires Agrees(db) && db.cursor.Some? && Accepted(OutcomeOf(db, s))
    ensures var span, d := SpanOf(db.cursor.value, s), db.domainState.value;
            && span == Between(d.at, d.bytes, d.epoch, s.at, s.bytes, s.epoch, s.interval)
            && span.delta.NonNegative() && span.oldAt < span.at
  {
  }

  /** The two separately written allocators, run over the same interval. */
  lemma AllocatorsMatch(db: Db, s: Sample, span: Span)
    requires Match(db.buckets, db.domainBuckets, db.sampling)
    requires s.connections.Some? && ConnectionsValid(s.connections.value)
    requires span.delta.NonNegative() && 0 <= span.at
    ensures var raw := SnapshotUsage(db, s, span);
            var usage := Attribute(raw, span.delta);
            var begin := span.Begin();
            Match(Fill(db.buckets, span, begin, begin),
                  FillDomains(db.domainBuckets, span, usage, SortedNames(usage.Keys), begin),
                  FillSampling(db.sampling, span, begin, ClippedBytes(raw, span.delta), begin))
  {
    var raw := SnapshotUsage(db, s, span);
    TallyValid(db.domainCursor, s.connections.value, span.oldAt, span.at, |s.connections.value|);
    var usage := Attribute(raw, span.delta);
    forall dir: Direction ensures UsageTotal(usage, dir) == span.delta.Of(dir) {
      AttributionExact(raw, span.delta, dir);
    }
    MatchFill(db.buckets, db.domainBuckets, db.sampling, span, usage, SortedNames(usage.Keys), span.Begin(),
              ClippedBytes(raw, span.delta), span.Begin());
  }

  /** Sampling with snapshots keeps the per-domain table and the totals table in exact agreement. */
  lemma RecordAgrees(db: Db, s: Sample)
    requires Agrees(db) && SampleValid(s) && s.connections.Some?
    ensures Agrees(Record(db, s))
  {
    if Accepted(OutcomeOf(db, s)) {
      AppliedAgrees(db, s);
      PruneAgrees(Apply(db, s), s.at);
    }
  }

  lemma AppliedAgrees(db: Db, s: Sample)
    requires Agrees(db) && SampleValid(s) && s.connections.Some? && Accepted(OutcomeOf(db, s))
    ensures Agrees(Apply(db, s))
  {
    if db.cursor.Some? {
      SpanAgrees(db, s);
      AllocatorsMatch(db, s, SpanOf(db.cursor.value, s));
    }
  }

  lemma AddRowMatch(b: map<int, Row>, t: map<Key, Bytes>, q: map<int, Sampling>, row: BatchRow)
    requires Match(b, t, q)
    ensures Match(AddRow(b, row.start, Row(row.bytes, 0, 0, 0)), Upsert(t, Key(row.start, row.domain), row.bytes), q)
  {
    var b', t' := AddRow(b, row.start, Row(row.bytes, 0, 0, 0)), Upsert(t, Key(row.start, row.domain), row.bytes);
    forall start ensures MatchAt(b', t', q, start) {
      assert MatchAt(b, t, q, start);
      forall dir: Direction ensures DomainSum(t', start, dir) == RowAt(b', start).bytes.Of(dir) {
        SumUpsertWhere(t, dir, Key(row.start, row.domain), row.bytes, InBucket(start));
        assert DomainSum(t, start, dir) == RowAt(b, start).bytes.Of(dir);
        AddRowBytes(b, row.start, Row(row.bytes, 0, 0, 0), start, dir);
      }
    }
  }

  lemma {:induction false} ImportRowsMatch(t: Tables, q: map<int, Sampling>, rows: seq<BatchRow>, cut: int, n: nat)
    requires n <= |rows| && Match(t.buckets, t.domainBuckets, q)
    ensures var done := ImportRows(t, rows, cut, n); Match(done.buckets, done.domainBuckets, q)
  {
    if n > 0 {
      ImportRowsMatch(t, q, rows, cut, n - 1);
      var done := ImportRows(t, rows, cut, n - 1);
      AddRowMatch(done.buckets, done.domainBuckets, q, rows[n - 1]);
    }
  }

  lemma CoverageSlice(b: map<int, Row>, t: map<Key, Bytes>, q: map<int, Sampling>, span: Span, begin: int, position: int)
    requires Match(b, t, q) && span.oldAt <= position < span.at && span.delta == Bytes(0, 0)
    ensures Match(AddRow(b, BucketOf(position), span.RowFor(begin, position)), t,
                  AddSampling(q, BucketOf(position), span.SamplingFor(begin, position, Bytes(0, 0))))
  {
    var bucket := BucketOf(position);
    var row, sampling := span.RowFor(begin, position), span.SamplingFor(begin, position, Bytes(0, 0));
    NothingShared(span, begin, position);
    forall start ensures MatchAt(AddRow(b, bucket, row), t, AddSampling(q, bucket, sampling), start) {
      assert MatchAt(b, t, q, start);
      SecondsMatch(b, t, q, bucket, row, sampling, start);
    }
  }

  lemma NothingShared(span: Span, begin: int, position: int)
    requires span.oldAt <= position < span.at && span.delta == Bytes(0, 0)
    ensures span.RowFor(begin, position).bytes == Bytes(0, 0)
  {
    ShareOfNothing(span, position, SliceEnd(position, span.at), Upload);
    ShareOfNothing(span, position, SliceEnd(position, span.at), Download);
  }

  lemma SecondsMatch(b: map<int, Row>, t: map<Key, Bytes>, q: map<int, Sampling>, bucket: int, row: Row,
                     sampling: Sampling, start: int)
    requires MatchAt(b, t, q, start) && row.bytes == Bytes(0, 0)
    requires sampling.observed == row.observed && sampling.estimated == row.estimated && sampling.resets == row.resets
    ensures MatchAt(AddRow(b, bucket, row), t, AddSampling(q, bucket, sampling), start)
  {
    forall dir: Direction ensures DomainSum(t, start, dir) == RowAt(AddRow(b, bucket, row), start).bytes.Of(dir) {
      assert DomainSum(t, start, dir) == RowAt(b, start).bytes.Of(dir);
      AddRowBytes(b, bucket, row, start, dir);
    }
  }

  /** Coverage seconds are added to both tables alike and touch no bytes. */
  lemma {:induction false} CoverageMatch(b: map<int, Row>, t: map<Key, Bytes>, q: map<int, Sampling>, span: Span,
                                         begin: int, position: int)
    requires Match(b, t, q) && span.oldAt <= position && span.delta == Bytes(0, 0)
    ensures Match(Fill(b, span, begin, position), t, FillSampling(q, span, begin, Bytes(0, 0), position))
    decreases span.at - position
  {
    if position < span.at {
      SliceAdvances(position, span.at);
      var bucket := BucketOf(position);
      var b', q' := AddRow(b, bucket, span.RowFor(begin, position)),
                    AddSampling(q, bucket, span.SamplingFor(begin, position, Bytes(0, 0)));
      CoverageSlice(b, t, q, span, begin, position);
      CoverageMatch(b', t, q', span, begin, SliceEnd(position, span.at));
    }
  }

  ghost predicate RowsNonNegative(b: Batch) {
    forall i :: 0 <= i < |b.rows| ==> b.rows[i].bytes.NonNegative()
  }

  lemma {:induction false} ImportTotal(t: Tables, rows: seq<BatchRow>, cut: int, n: nat)
    requires n <= |rows| && t.total.NonNegative()
    requires forall i :: 0 <= i < |rows| ==> rows[i].bytes.NonNegative()
    ensures ImportRows(t, rows, cut, n).total.NonNegative()
  {
    if n > 0 {
      ImportTotal(t, rows, cut, n - 1);
    }
  }

  /** Importing a journal batch keeps the agreement as well. */
  lemma ImportAgrees(db: Db, b: Batch)
    requires Agrees(db) && 0 <= b.to && RowsNonNegative(b)
    ensures Agrees(Import(db, b))
  {
    if ImportOutcome(db, b).Committed? {
      var booked := ImportRows(Tables(db.buckets, db.domainBuckets, Bytes(0, 0)), b.rows, Cutoff(b.to), |b.rows|);
      var span := CoverageSpan(b);
      ImportTotal(Tables(db.buckets, db.domainBuckets, Bytes(0, 0)), b.rows, Cutoff(b.to), |b.rows|);
      ImportRowsMatch(Tables(db.buckets, db.domainBuckets, Bytes(0, 0)), db.sampling, b.rows, Cutoff(b.to), |b.rows|);
      CoverageMatch(booked.buckets, booked.domainBuckets, db.sampling, span, span.Begin(), span.Begin());
      PruneAgrees(ApplyBatch(db, b), b.to);
    }
  }
}
