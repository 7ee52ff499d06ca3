/**
 The tables of the traffic database and what one transaction does to them, as functions from
 one database value to the next. Class `Store` is proved against these functions.
 */
module Database {
  import opened Wrappers
  import opened Sums
  import opened Allocation
  import opened Calendar
  import opened Ordering

  const MAX_COUNTER := 0x7FFF_FFFF_FFFF_FFFF
  const UNATTRIBUTED := "[unattributed]"
  const KERNEL_SOURCE := "kernel-journal-v1"

  datatype Row = Row(bytes: Bytes, observed: int, estimated: int, resets: int)
  datatype Sampling = Sampling(observed: int, estimated: int, resets: int, clipped: Bytes)
  datatype Key = Key(start: int, domain: string)
  datatype Cursor = Cursor(at: int, bytes: Bytes, epoch: string, source: string)
  datatype DomainState = DomainState(at: int, bytes: Bytes, epoch: string, started: int)
  datatype Checkpoint = Checkpoint(domain: string, bytes: Bytes)

  /** One journal batch as the engine writes it to the spool. */
  datatype BatchRow = BatchRow(start: int, domain: string, bytes: Bytes)
  datatype Batch = Batch(version: int, emittedNs: int, epoch: string, sequence: int,
                         from: int, to: int, unclean: bool, rows: seq<BatchRow>)

  /** The digest column is injective in the batch contents, so the contents stand for it. */
  datatype EpochRow = EpochRow(sequence: int, digest: Batch, at: int, tailLoss: bool)

  datatype Db = Db(
    buckets: map<int, Row>,
    cursor: Option<Cursor>,
    domainBuckets: map<Key, Bytes>,
    domainState: Option<DomainState>,
    domainCursor: map<string, Checkpoint>,
    sampling: map<int, Sampling>,
    epochs: map<string, EpochRow>,
    kernelStarted: Option<int>)

  const EMPTY := Db(map[], None, map[], None, map[], map[], map[], None)

  function RowAt(t: map<int, Row>, start: int): Row {
    if start in t then t[start] else Row(Bytes(0, 0), 0, 0, 0)
  }

  function SamplingAt(t: map<int, Sampling>, start: int): Sampling {
    if start in t then t[start] else Sampling(0, 0, 0, Bytes(0, 0))
  }

  function AddRow(t: map<int, Row>, start: int, row: Row): map<int, Row> {
    var prev := RowAt(t, start);
    t[start := Row(Bytes(prev.bytes.up + row.bytes.up, prev.bytes.down + row.bytes.down),
                   prev.observed + row.observed, prev.estimated + row.estimated, prev.resets + row.resets)]
  }

  function AddSampling(t: map<int, Sampling>, start: int, row: Sampling): map<int, Sampling> {
    var prev := SamplingAt(t, start);
    t[start := Sampling(prev.observed + row.observed, prev.estimated + row.estimated, prev.resets + row.resets,
                        Bytes(prev.clipped.up + row.clipped.up, prev.clipped.down + row.clipped.down))]
  }

  // ---- spreading an interval over 15-minute buckets ----

  function Min(a: int, b: int): int { if a < b then a else b }

  function Max(a: int, b: int): int { if a < b then b else a }

  function BucketOf(position: int): int { position / BUCKET * BUCKET }

  function SliceEnd(position: int, at: int): int { Min(at, BucketOf(position) + BUCKET) }

  lemma SliceAdvances(position: int, at: int)
    requires position < at
    ensures BucketOf(position) <= position < SliceEnd(position, at) <= at
    ensures SliceEnd(position, at) <= BucketOf(position) + BUCKET
    ensures BucketOf(position) % BUCKET == 0
  {
    Floored(position);
  }

  /** The interval between two samples and the bytes moved in it. */
  datatype Span = Span(oldAt: int, at: int, delta: Bytes, reset: bool, estimated: bool) {
    function Begin(): int
      requires 0 <= at
    {
      Max(oldAt, Cutoff(at))
    }

    function Share(b: Bytes, left: int, right: int): Bytes
      requires oldAt < at
    {
      Bytes(Allocation.Share(b.up, left - oldAt, right - oldAt, at - oldAt),
            Allocation.Share(b.down, left - oldAt, right - oldAt, at - oldAt))
    }

    function RowFor(begin: int, position: int): Row
      requires oldAt < at && position < at
    {
      var end := SliceEnd(position, at);
      Row(Share(delta, position, end),
          if estimated then 0 else end - position,
          if estimated then end - position else 0,
          if reset && position == begin then 1 else 0)
    }

    function SamplingFor(begin: int, position: int, clipped: Bytes): Sampling
      requires oldAt < at && position < at
    {
      var row := RowFor(begin, position);
      Sampling(row.observed, row.estimated, row.resets, Share(clipped, position, SliceEnd(position, at)))
    }
  }

  function Fill(t: map<int, Row>, span: Span, begin: int, position: int): map<int, Row>
    requires span.oldAt <= position
    decreases span.at - position
  {
    if position >= span.at then t
    else
      SliceAdvances(position, span.at);
      Fill(AddRow(t, BucketOf(position), span.RowFor(begin, position)), span, begin,
           SliceEnd(position, span.at))
  }

  function FillSampling(t: map<int, Sampling>, span: Span, begin: int, clipped: Bytes, position: int)
    : map<int, Sampling>
    requires span.oldAt <= position
    decreases span.at - position
  {
    if position >= span.at then t
    else
      SliceAdvances(position, span.at);
      FillSampling(AddSampling(t, BucketOf(position), span.SamplingFor(begin, position, clipped)), span, begin,
                   clipped, SliceEnd(position, span.at))
  }

  // ---- attributing a delta to domains ----

  type Usage = map<string, Bytes>

  datatype Connection = Connection(key: string, domain: string, bytes: Bytes, began: real)

  /** What one listed connection adds, given the checkpoints of the previous snapshot. */
  function Credit(prior: map<string, Checkpoint>, c: Connection, oldAt: int, at: int): Bytes {
    if c.key in prior then
      var prev := prior[c.key];
      if c.domain == prev.domain && c.bytes.up >= prev.bytes.up && c.bytes.down >= prev.bytes.down
      then Bytes(c.bytes.up - prev.bytes.up, c.bytes.down - prev.bytes.down) else Bytes(0, 0)
    else if oldAt as real <= c.began <= at as real then c.bytes
    else Bytes(0, 0)
  }

  /** The dictionary after the first n connections. */
  function Tally(prior: map<string, Checkpoint>, conns: seq<Connection>, oldAt: int, at: int, n: nat): Usage
    requires n <= |conns|
  {
    if n == 0 then map[]
    else Upsert(Tally(prior, conns, oldAt, at, n - 1), conns[n - 1].domain, Credit(prior, conns[n - 1], oldAt, at))
  }

  /** One direction of a dictionary, in a given order of its domains. */
  function Column(usage: Usage, order: seq<string>, dir: Direction): (vals: seq<int>)
    ensures |vals| == |order|
    ensures forall i :: 0 <= i < |order| ==> vals[i] == At(usage, order[i]).Of(dir)
  {
    seq(|order|, i requires 0 <= i < |order| => At(usage, order[i]).Of(dir))
  }

  /** The first n domains of an order given new values in one direction. */
  function Assign(usage: Usage, order: seq<string>, dir: Direction, vals: seq<int>, n: nat): Usage
    requires n <= |order| == |vals|
  {
    if n == 0 then usage
    else
      var done := Assign(usage, order, dir, vals, n - 1);
      done[order[n - 1] := At(done, order[n - 1]).With(dir, vals[n - 1])]
  }

  ghost function CapDirection(usage: Usage, dir: Direction, budget: int): Usage {
    var order := SortedNames(usage.Keys);
    var vals := Column(usage, order, dir);
    if Total(vals) > budget then Assign(usage, order, dir, Capped(vals, budget), |order|) else usage
  }

  ghost function UsageTotal(usage: Usage, dir: Direction): int {
    Total(Column(usage, SortedNames(usage.Keys), dir))
  }

  function Clipped(total: int, budget: int): int {
    Min(MAX_COUNTER, Max(0, total - budget))
  }

  ghost function ClippedBytes(usage: Usage, delta: Bytes): Bytes {
    Bytes(Clipped(UsageTotal(usage, Upload), delta.up), Clipped(UsageTotal(usage, Download), delta.down))
  }

  ghost function CappedUsage(usage: Usage, delta: Bytes): Usage {
    CapDirection(CapDirection(usage, Upload, delta.up), Download, delta.down)
  }

  ghost function Remainder(kept: Usage, delta: Bytes): Bytes {
    Bytes(delta.up - UsageTotal(kept, Upload), delta.down - UsageTotal(kept, Download))
  }

  /** Capped usage with the remainder of the delta booked as unattributed. */
  ghost function Attribute(usage: Usage, delta: Bytes): Usage {
    var kept := CappedUsage(usage, delta);
    kept[UNATTRIBUTED := Remainder(kept, delta)]
  }

  /** A slice's budget cut for the domains of an order. */
  function Pieces(budget: Bytes, delta: Bytes, usage: Usage, order: seq<string>): (pieces: seq<Bytes>)
    ensures |pieces| == |order|
  {
    var ups := Apportion(budget.up, delta.up, Column(usage, order, Upload));
    var downs := Apportion(budget.down, delta.down, Column(usage, order, Download));
    seq(|order|, i requires 0 <= i < |order| => Bytes(ups[i], downs[i]))
  }

  function AddDomain(t: map<Key, Bytes>, key: Key, b: Bytes): map<Key, Bytes> {
    if b == Bytes(0, 0) then t else Upsert(t, key, b)
  }

  /** The first n pieces of a slice booked under their domains. */
  function Deal(t: map<Key, Bytes>, bucket: int, order: seq<string>, pieces: seq<Bytes>, n: nat): map<Key, Bytes>
    requires n <= |order| == |pieces|
  {
    if n == 0 then t
    else AddDomain(Deal(t, bucket, order, pieces, n - 1), Key(bucket, order[n - 1]), pieces[n - 1])
  }

  function DealSlice(t: map<Key, Bytes>, span: Span, usage: Usage, order: seq<string>, position: int): map<Key, Bytes>
    requires span.oldAt <= position < span.at
  {
    var budget := span.Share(span.delta, position, SliceEnd(position, span.at));
    Deal(t, BucketOf(position), order, Pieces(budget, span.delta, usage, order), |order|)
  }

  function FillDomains(t: map<Key, Bytes>, span: Span, usage: Usage, order: seq<string>, position: int)
    : map<Key, Bytes>
    requires span.oldAt <= position
    decreases span.at - position
  {
    if position >= span.at then t
    else
      SliceAdvances(position, span.at);
      FillDomains(DealSlice(t, span, usage, order, position), span, usage, order, SliceEnd(position, span.at))
  }

  function Checkpoints(conns: seq<Connection>, n: nat): map<string, Checkpoint>
    requires n <= |conns|
  {
    if n == 0 then map[]
    else Checkpoints(conns, n - 1)[conns[n - 1].key := Checkpoint(conns[n - 1].domain, conns[n - 1].bytes)]
  }

  /** The counter delta between two samples; a new epoch or a decrease counts from zero. */
  function Between(oldAt: int, oldBytes: Bytes, oldEpoch: string, at: int, bytes: Bytes, epoch: string, interval: int)
    : Span
  {
    var reset := epoch != oldEpoch || bytes.up < oldBytes.up || bytes.down < oldBytes.down;
    var delta := if reset then bytes else Bytes(bytes.up - oldBytes.up, bytes.down - oldBytes.down);
    Span(oldAt, at, delta, reset, reset || at - oldAt > interval * 2)
  }

  datatype Sample = Sample(at: nat, bytes: Bytes, epoch: string, source: string, interval: int,
                           connections: Option<seq<Connection>>)

  ghost function SnapshotUsage(db: Db, s: Sample, span: Span): Usage
    requires s.connections.Some?
  {
    if span.reset then map[]
    else Tally(db.domainCursor, s.connections.value, span.oldAt, span.at, |s.connections.value|)
  }

  /** `Store._record_domains`: it leaves the totals, the cursor and the journal tables alone. */
  ghost function RecordDomains(db: Db, s: Sample): (after: Db)
    requires s.connections.Some?
    requires db.domainState.Some? ==> 0 <= db.domainState.value.at
    ensures after.buckets == db.buckets && after.cursor == db.cursor
    ensures after.epochs == db.epochs && after.kernelStarted == db.kernelStarted
    ensures db.domainState.None? || db.domainState.value.at < s.at ==>
              after.domainState.Some? && after.domainState.value.at == s.at
    ensures db.domainState.Some? && s.at <= db.domainState.value.at ==> after == db
  {
    if db.domainState.Some? && s.at <= db.domainState.value.at then db
    else
      var conns := s.connections.value;
      var filled :=
        if db.domainState.None? then db
        else
          var prev := db.domainState.value;
          var span := Between(prev.at, prev.bytes, prev.epoch, s.at, s.bytes, s.epoch, s.interval);
          var raw := SnapshotUsage(db, s, span);
          var usage := Attribute(raw, span.delta);
          var begin := span.Begin();
          db.(domainBuckets := FillDomains(db.domainBuckets, span, usage, SortedNames(usage.Keys), begin),
              sampling := FillSampling(db.sampling, span, begin, ClippedBytes(raw, span.delta), begin));
      filled.(domainCursor := Checkpoints(conns, |conns|),
              domainState := Some(DomainState(s.at, s.bytes, s.epoch,
                                              if db.domainState.None? then s.at else db.domainState.value.started)))
  }

  function Prune(db: Db, now: nat): Db {
    var cut := Cutoff(now);
    db.(buckets := map k | k in db.buckets && k >= cut :: db.buckets[k],
        domainBuckets := map k | k in db.domainBuckets && k.start >= cut :: db.domainBuckets[k],
        sampling := map k | k in db.sampling && k >= cut :: db.sampling[k],
        domainCursor := if db.domainState.Some? && db.domainState.value.at < cut then map[] else db.domainCursor)
  }

  datatype Outcome = Baseline | ClockNotAdvanced | Reset | Gap | Ok | InvalidCounter | SourceChanged

  predicate ValidCounter(n: int) { 0 <= n <= MAX_COUNTER }

  predicate ValidCounters(b: Bytes) { ValidCounter(b.up) && ValidCounter(b.down) }

  /** Times in the tables are timestamps. */
  ghost predicate ValidTimes(db: Db) {
    && (db.cursor.Some? ==> 0 <= db.cursor.value.at)
    && (db.domainState.Some? ==> 0 <= db.domainState.value.at)
  }

  function SpanOf(cursor: Cursor, s: Sample): Span {
    Between(cursor.at, cursor.bytes, cursor.epoch, s.at, s.bytes, s.epoch, s.interval)
  }

  function OutcomeOf(db: Db, s: Sample): Outcome {
    if !ValidCounters(s.bytes) then InvalidCounter
    else if db.cursor.None? then Baseline
    else if db.cursor.value.source != s.source then SourceChanged
    else if s.at <= db.cursor.value.at then ClockNotAdvanced
    else
      var span := SpanOf(db.cursor.value, s);
      if span.reset then Reset else if span.estimated then Gap else Ok
  }

  predicate Accepted(outcome: Outcome) {
    outcome.Baseline? || outcome.Reset? || outcome.Gap? || outcome.Ok?
  }

  /** Everything an accepted sample changes except the final retention pass. */
  ghost function Apply(db: Db, s: Sample): Db
    requires ValidTimes(db) && Accepted(OutcomeOf(db, s))
  {
    var filled :=
      if db.cursor.None? then db
      else
        var span := SpanOf(db.cursor.value, s);
        db.(buckets := Fill(db.buckets, span, span.Begin(), span.Begin()));
    var attributed := if s.connections.Some? then RecordDomains(filled, s) else filled;
    attributed.(cursor := Some(Cursor(s.at, s.bytes, s.epoch, s.source)))
  }

  /** `Store.record`. */
  ghost function Record(db: Db, s: Sample): Db
    requires ValidTimes(db)
  {
    if Accepted(OutcomeOf(db, s)) then Prune(Apply(db, s), s.at) else db
  }

  // ---- importing a journal batch ----

  datatype Imported = Committed | Duplicate | Conflict | Gapped | Overlapping

  function ImportOutcome(db: Db, b: Batch): Imported {
    var known := b.epoch in db.epochs;
    if known && b.sequence <= db.epochs[b.epoch].sequence then
      if b.sequence == db.epochs[b.epoch].sequence && b != db.epochs[b.epoch].digest then Conflict else Duplicate
    else if b.sequence != (if known then db.epochs[b.epoch].sequence + 1 else 1)
            || (known && b.from != db.epochs[b.epoch].at) then Gapped
    else if !known && db.cursor.Some? && b.from < db.cursor.value.at then Overlapping
    else Committed
  }

  datatype Tables = Tables(buckets: map<int, Row>, domainBuckets: map<Key, Bytes>, total: Bytes)

  /** The first n rows of a batch booked under both totals, rows older than the boundary skipped. */
  function ImportRows(t: Tables, rows: seq<BatchRow>, cut: int, n: nat): Tables
    requires n <= |rows|
  {
    if n == 0 then t
    else
      var done := ImportRows(t, rows, cut, n - 1);
      var row := rows[n - 1];
      if row.start < cut then done
      else Tables(AddRow(done.buckets, row.start, Row(row.bytes, 0, 0, 0)),
                  Upsert(done.domainBuckets, Key(row.start, row.domain), row.bytes),
                  Bytes(done.total.up + row.bytes.up, done.total.down + row.bytes.down))
  }

  function CoverageSpan(b: Batch): Span {
    Span(b.from, b.to, Bytes(0, 0), false, false)
  }

  function TailLoss(db: Db, b: Batch): bool {
    b.unclean || (b.epoch in db.epochs && db.epochs[b.epoch].tailLoss)
  }

  /** The synthetic cumulative counter after a batch. */
  function Cumulated(cursor: Option<Cursor>, total: Bytes): Bytes {
    if cursor.None? then total
    else Bytes(cursor.value.bytes.up + total.up, cursor.value.bytes.down + total.down)
  }

  function ApplyBatch(db: Db, b: Batch): Db
    requires 0 <= b.to
  {
    var booked := ImportRows(Tables(db.buckets, db.domainBuckets, Bytes(0, 0)), b.rows, Cutoff(b.to), |b.rows|);
    var span := CoverageSpan(b);
    var begin := span.Begin();
    var bytes := Cumulated(db.cursor, booked.total);
    Db(Fill(booked.buckets, span, begin, begin),
       Some(Cursor(b.to, bytes, b.epoch, KERNEL_SOURCE)),
       booked.domainBuckets,
       Some(DomainState(b.to, bytes, b.epoch,
                        if db.domainState.Some? then db.domainState.value.started else b.from)),
       map[],
       FillSampling(db.sampling, span, begin, Bytes(0, 0), begin),
       db.epochs[b.epoch := EpochRow(b.sequence, b, b.to, TailLoss(db, b))],
       if db.kernelStarted.Some? then db.kernelStarted else Some(b.from))
  }

  /** `Store.import_batch`. */
  function Import(db: Db, b: Batch): Db
    requires 0 <= b.to
  {
    if ImportOutcome(db, b).Committed? then Prune(ApplyBatch(db, b), b.to) else db
  }
}
