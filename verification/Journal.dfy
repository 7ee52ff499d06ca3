/**
 The engine's accounting journal: bytes are added to rows in memory and flushed as immutable,
 numbered batches, and the collector checks each batch before it is imported.
 */
module Journal {
  import opened Sums
  import opened Calendar
  import opened Ordering
  import opened Wrappers
  import opened Database

  const DOMAIN_LIMIT := "[domain-limit]"
  const SECOND := 1_000_000_000

  /** The fields of the engine's journal. */
  datatype State = State(epoch: string, sequence: nat, from: int, unclean: bool, rows: map<Key, Bytes>)

  // ---- adding ----

  function RowKey(s: State, host: string, now: int): Key {
    var start := BucketOf(Max(now, s.from));
    if Key(start, host) !in s.rows && |s.rows| >= 10000 then Key(start, DOMAIN_LIMIT) else Key(start, host)
  }

  function Added(s: State, host: string, b: Bytes, now: int): State {
    if b.up <= 0 && b.down <= 0 then s else s.(rows := Upsert(s.rows, RowKey(s, host, now), b))
  }

  // ---- flushing ----

  predicate KeyLeq(a: Key, b: Key) {
    a.start < b.start || (a.start == b.start && NameLeq(a.domain, b.domain))
  }

  lemma KeysTotal()
    ensures TotalOrder(KeyLeq)
  {
    NamesTotal();
    forall a: Key, b: Key ensures (KeyLeq(a, b) || KeyLeq(b, a)) && (KeyLeq(a, b) && KeyLeq(b, a) ==> a == b) {
      NameTotal(a.domain, b.domain);
    }
    forall a: Key, b: Key, c: Key | KeyLeq(a, b) && KeyLeq(b, c) ensures KeyLeq(a, c) {
      if a.start == b.start == c.start {
        NameTransitive(a.domain, b.domain, c.domain);
      }
    }
  }

  /** Row keys ordered by bucket, then by domain. */
  ghost function SortedKeys(keys: set<Key>): (list: seq<Key>)
    ensures Distinct(list) && |list| == |keys|
    ensures forall k :: k in list <==> k in keys
  {
    KeysTotal();
    SortedLists(keys, KeyLeq);
    Sorted(keys, KeyLeq)
  }

  method SortKeys(keys: set<Key>) returns (list: seq<Key>)
    ensures list == SortedKeys(keys)
  {
    KeysTotal();
    list := Sort(keys, KeyLeq);
  }

  function RowsFor(rows: map<Key, Bytes>, keys: seq<Key>): (list: seq<BatchRow>)
    ensures |list| == |keys|
  {
    seq(|keys|, i requires 0 <= i < |keys| => BatchRow(keys[i].start, keys[i].domain, At(rows, keys[i])))
  }

  /** The batch a flush writes. */
  ghost function Emitted(s: State, stampNs: nat): Batch {
    Batch(1, stampNs, s.epoch, s.sequence + 1, s.from, stampNs / SECOND, s.unclean,
          RowsFor(s.rows, SortedKeys(s.rows.Keys)))
  }

  /** The journal after a batch has been written durably. */
  function Flushed(s: State, stampNs: nat): State {
    s.(rows := map[], sequence := s.sequence + 1, from := stampNs / SECOND, unclean := false)
  }

  /** Where the filesystem part of a flush stops: in writing the temporary file, or in syncing after the rename. */
  datatype Fault = NoFault | BeforeRename | AfterRename

  datatype FlushError = SpoolFull | ClockBackwards | Io

  /** What a flush makes visible in the spool, and its error if it fails. */
  datatype FlushResult = FlushResult(visible: Option<Batch>, error: Option<FlushError>)

  ghost function FlushResultOf(s: State, stampNs: nat, entries: nat, fault: Fault): FlushResult {
    if entries > 10000 then FlushResult(None, Some(SpoolFull))
    else if stampNs / SECOND < s.from then FlushResult(None, Some(ClockBackwards))
    else match fault
      case BeforeRename => FlushResult(None, Some(Io))
      case AfterRename => FlushResult(Some(Emitted(s, stampNs)), Some(Io))
      case NoFault => FlushResult(Some(Emitted(s, stampNs)), None)
  }

  ghost function AfterFlush(s: State, stampNs: nat, entries: nat, fault: Fault): State {
    if FlushResultOf(s, stampNs, entries, fault).error.None? then Flushed(s, stampNs) else s
  }

  class DomainJournal {
    var epoch: string
    var sequence: nat
    var from: int
    var unclean: bool
    var rows: map<Key, Bytes>

    ghost function Value(): State
      reads this
    {
      State(epoch, sequence, from, unclean, rows)
    }

    constructor (epoch: string, now: int, unclean: bool)
      ensures Value() == State(epoch, 0, now, unclean, map[])
    {
      this.epoch, sequence, from, this.unclean, rows := epoch, 0, now, unclean, map[];
    }

    method Add(host: string, up: int, down: int, now: int)
      modifies this
      ensures Value() == Added(old(Value()), host, Bytes(up, down), now)
    {
      if up <= 0 && down <= 0 {
        return;
      }
      var at := now;
      if at < from {
        at := from;
      }
      var key := Key(at / 900 * 900, host);
      if key !in rows && |rows| >= 10000 {
        key := Key(key.start, DOMAIN_LIMIT);
      }
      var row := if key in rows then rows[key] else Bytes(0, 0);
      rows := rows[key := Bytes(row.up + up, row.down + down)];
    }

    /** The rows in memory as the sorted list that goes into a batch. */
    method Snapshot() returns (list: seq<BatchRow>)
      ensures list == RowsFor(rows, SortedKeys(rows.Keys))
    {
      var keys := SortKeys(rows.Keys);
      list := [];
      for i := 0 to |keys|
        invariant |list| == i && forall j :: 0 <= j < i ==> list[j] == RowsFor(rows, keys)[j]
      {
        assert keys[i] in keys;
        list := list + [BatchRow(keys[i].start, keys[i].domain, rows[keys[i]])];
      }
    }

    method Flush(stampNs: nat, entries: nat, fault: Fault) returns (result: FlushResult)
      modifies this
      ensures result == FlushResultOf(old(Value()), stampNs, entries, fault)
      ensures Value() == AfterFlush(old(Value()), stampNs, entries, fault)
    {
      if entries > 10000 {
        return FlushResult(None, Some(SpoolFull));
      }
      var now := stampNs / SECOND;
      if now < from {
        return FlushResult(None, Some(ClockBackwards));
      }
      var list := Snapshot();
      var batch := Batch(1, stampNs, epoch, sequence + 1, from, now, unclean, list);
      if fault.BeforeRename? {
        return FlushResult(None, Some(Io));
      }
      if fault.AfterRename? {
        return FlushResult(Some(batch), Some(Io));
      }
      rows := map[];
      sequence := sequence + 1;
      from := now;
      unclean := false;
      return FlushResult(Some(batch), None);
    }
  }

  // ---- bytes ----

  /** The bytes of the first n rows of a batch. */
  function RowsTotal(rows: seq<BatchRow>, dir: Direction, n: nat): int
    requires n <= |rows|
  {
    if n == 0 then 0 else RowsTotal(rows, dir, n - 1) + rows[n - 1].bytes.Of(dir)
  }

  function BatchTotal(b: Batch, dir: Direction): int {
    RowsTotal(b.rows, dir, |b.rows|)
  }

  lemma {:induction false} RowsForTotal(rows: map<Key, Bytes>, keys: seq<Key>, dir: Direction)
    requires Enumerates(keys, rows.Keys)
    ensures RowsTotal(RowsFor(rows, keys), dir, |keys|) == Sum(rows, dir)
    decreases |keys|
  {
    var n := |keys|;
    if n == 0 {
      assert rows.Keys == {};
      assert rows == map[];
    } else {
      var last, front := keys[n - 1], keys[..n - 1];
      var rest := rows - {last};
      EnumeratesFront(keys, rows.Keys);
      assert rest.Keys == rows.Keys - {last};
      RowsForTotal(rest, front, dir);
      RowsForFront(rows, keys, dir);
      SumTake(rows, dir, last);
    }
  }

  lemma RowsForFront(rows: map<Key, Bytes>, keys: seq<Key>, dir: Direction)
    requires keys != [] && Distinct(keys)
    ensures var n := |keys|;
            RowsTotal(RowsFor(rows, keys), dir, n) ==
            RowsTotal(RowsFor(rows - {keys[n - 1]}, keys[..n - 1]), dir, n - 1) + At(rows, keys[n - 1]).Of(dir)
  {
    var n := |keys|;
    RowsTotalSame(RowsFor(rows, keys), RowsFor(rows - {keys[n - 1]}, keys[..n - 1]), dir, n - 1);
  }

  lemma {:induction false} RowsTotalSame(a: seq<BatchRow>, b: seq<BatchRow>, dir: Direction, n: nat)
    requires n <= |a| && n <= |b| && forall i :: 0 <= i < n ==> a[i] == b[i]
    ensures RowsTotal(a, dir, n) == RowsTotal(b, dir, n)
  {
    if n > 0 {
      RowsTotalSame(a, b, dir, n - 1);
    }
  }

  /** A flushed batch holds exactly the bytes that were in memory. */
  lemma EmittedTotal(s: State, stampNs: nat, dir: Direction)
    ensures BatchTotal(Emitted(s, stampNs), dir) == Sum(s.rows, dir)
  {
    var keys := SortedKeys(s.rows.Keys);
    assert Elements(keys) == s.rows.Keys;
    RowsForTotal(s.rows, keys, dir);
  }

  /** The capacity fallback loses no bytes. */
  lemma AddedTotal(s: State, host: string, b: Bytes, now: int, dir: Direction)
    requires b.NonNegative()
    ensures Sum(Added(s, host, b, now).rows, dir) == Sum(s.rows, dir) + b.Of(dir)
  {
    SumUpsert(s.rows, dir, RowKey(s, host, now), b);
  }

  // ---- what the collector accepts ----

  predicate HexEpoch(epoch: string) {
    |epoch| == 32 && forall i :: 0 <= i < 32 ==> '0' <= epoch[i] <= '9' || 'a' <= epoch[i] <= 'f'
  }

  function RowKeyOf(row: BatchRow): Key { Key(row.start, row.domain) }

  ghost predicate RowValid(b: Batch, row: BatchRow) {
    && ValidCounter(row.start) && ValidCounters(row.bytes)
    && row.start % BUCKET == 0 && BucketOf(b.from) <= row.start <= BucketOf(b.to)
  }

  ghost predicate RowsDistinct(b: Batch) {
    forall i, j :: 0 <= i < j < |b.rows| ==> RowKeyOf(b.rows[i]) != RowKeyOf(b.rows[j])
  }

  /** What `validate_batch` accepts; the file name repeats the epoch and the sequence. */
  ghost predicate BatchValid(b: Batch, now: int) {
    && b.version == 1 && HexEpoch(b.epoch)
    && ValidCounter(b.sequence) && 1 <= b.sequence
    && ValidCounter(b.from) && ValidCounter(b.to) && ValidCounter(b.emittedNs)
    && b.to * SECOND <= b.emittedNs < (b.to + 2) * SECOND
    && b.from <= b.to <= now + 5
    && |b.rows| <= 10002
    && (forall i :: 0 <= i < |b.rows| ==> RowValid(b, b.rows[i]))
    && RowsDistinct(b)
  }

  method ValidateBatch(b: Batch, now: int) returns (valid: bool)
    ensures valid == BatchValid(b, now)
  {
    if b.version != 1 || !HexEpoch(b.epoch) || !ValidCounter(b.sequence) || b.sequence < 1 {
      return false;
    }
    if !ValidCounter(b.from) || !ValidCounter(b.to) || !ValidCounter(b.emittedNs) {
      return false;
    }
    if !(b.to * SECOND <= b.emittedNs < (b.to + 2) * SECOND) {
      return false;
    }
    if b.to < b.from || b.to > now + 5 || |b.rows| > 10002 {
      return false;
    }
    var keys: set<Key> := {};
    for i := 0 to |b.rows|
      invariant keys == set j | 0 <= j < i :: RowKeyOf(b.rows[j])
      invariant forall j :: 0 <= j < i ==> RowValid(b, b.rows[j])
      invariant forall j, k :: 0 <= j < k < i ==> RowKeyOf(b.rows[j]) != RowKeyOf(b.rows[k])
    {
      var row := b.rows[i];
      if !ValidCounter(row.start) || row.start % BUCKET != 0 || row.start < BucketOf(b.from)
         || BucketOf(b.to) < row.start || !ValidCounters(row.bytes) {
        return false;
      }
      if RowKeyOf(row) in keys {
        return false;
      }
      keys := keys + {RowKeyOf(row)};
    }
    return true;
  }

  // ---- what an honest journal writes ----

  /** Domains that are not the capacity fallback. */
  ghost function Named(rows: map<Key, Bytes>): set<Key> {
    set k | k in rows && k.domain != DOMAIN_LIMIT
  }

  /** The journal of a run whose clock has reached `now`. */
  ghost predicate Sound(s: State, now: int) {
    && 0 <= s.from <= now && |Named(s.rows)| <= 10000
    && forall k :: k in s.rows ==>
         k.start % BUCKET == 0 && BucketOf(s.from) <= k.start <= BucketOf(now) && s.rows[k].NonNegative()
  }

  lemma BucketMonotone(a: int, b: int)
    requires a <= b
    ensures BucketOf(a) <= BucketOf(b)
  {
  }

  lemma AddedSound(s: State, host: string, b: Bytes, earlier: int, now: int)
    requires Sound(s, earlier) && earlier <= now && b.NonNegative()
    ensures Sound(Added(s, host, b, now), now)
  {
    var key := RowKey(s, host, now);
    BucketMonotone(s.from, now);
    BucketMonotone(earlier, now);
    Floored(now);
    var after := Added(s, host, b, now);
    if key.domain == DOMAIN_LIMIT || key in s.rows || (b.up <= 0 && b.down <= 0) {
      assert Named(after.rows) == Named(s.rows);
    } else {
      assert Named(after.rows) == Named(s.rows) + {key};
      assert Named(s.rows) <= s.rows.Keys;
      SubsetSmaller(Named(s.rows), s.rows.Keys);
    }
  }

  lemma {:induction false} SubsetSmaller<T>(a: set<T>, b: set<T>)
    requires a <= b
    ensures |a| <= |b|
    decreases |a|
  {
    if a != {} {
      var x :| x in a;
      SubsetSmaller(a - {x}, b - {x});
    }
  }

  lemma LaterSound(s: State, earlier: int, now: int)
    requires Sound(s, earlier) && earlier <= now
    ensures Sound(s, now)
  {
    BucketMonotone(earlier, now);
  }

  lemma FlushedSound(s: State, stampNs: nat)
    ensures Sound(Flushed(s, stampNs), stampNs / SECOND)
  {
    assert Named(map[]) == {};
  }

  /** The number of buckets an interval reaches into. */
  function BucketsIn(from: int, to: int): int {
    (BucketOf(to) - BucketOf(from)) / BUCKET + 1
  }

  /** At most one fallback row for each bucket. */
  lemma {:induction false} FallbackRows(keys: set<Key>, first: int, n: nat)
    requires first % BUCKET == 0
    requires forall k :: k in keys ==>
               k.domain == DOMAIN_LIMIT && k.start % BUCKET == 0 && first <= k.start < first + n * BUCKET
    ensures |keys| <= n
    decreases n
  {
    if n == 0 {
      assert first + n * BUCKET == first;
      assert forall k :: k in keys ==> first <= k.start < first;
      assert keys == {};
    } else {
      var last := first + (n - 1) * BUCKET;
      var rest := keys - {Key(last, DOMAIN_LIMIT)};
      forall k | k in rest ensures k.start < last {
        BeforeLast(k.start, last);
      }
      FallbackRows(rest, first, n - 1);
    }
  }

  lemma BeforeLast(k: int, last: int)
    requires k % BUCKET == 0 && last % BUCKET == 0 && k < last + BUCKET && k != last
    ensures k < last
  {
  }

  /** A journal holds at most 10000 rows and one more for every bucket it spans. */
  lemma RowsBounded(s: State, now: int)
    requires Sound(s, now)
    ensures |s.rows| <= 10000 + BucketsIn(s.from, now)
  {
    BucketMonotone(s.from, now);
    Floored(s.from);
    Floored(now);
    var first, n := BucketOf(s.from), BucketsIn(s.from, now);
    var fallback := s.rows.Keys - Named(s.rows);
    AlignedGap(BucketOf(s.from), BucketOf(now));
    FallbackRows(fallback, first, n);
    assert s.rows.Keys == Named(s.rows) + fallback;
    assert |s.rows| == |s.rows.Keys|;
  }

  lemma AlignedGap(a: int, b: int)
    requires a % BUCKET == 0 && b % BUCKET == 0
    ensures a + ((b - a) / BUCKET + 1) * BUCKET == b + BUCKET
  {
  }

  /** The counters of a batch fit the engine's 64-bit fields. */
  ghost predicate FitsInt64(b: Batch) {
    && b.emittedNs <= MAX_COUNTER && b.sequence <= MAX_COUNTER
    && forall i :: 0 <= i < |b.rows| ==> b.rows[i].bytes.up <= MAX_COUNTER && b.rows[i].bytes.down <= MAX_COUNTER
  }

  lemma EmittedRow(s: State, stampNs: nat, i: nat)
    requires i < |Emitted(s, stampNs).rows|
    ensures var row := Emitted(s, stampNs).rows[i];
            RowKeyOf(row) in s.rows && row.bytes == s.rows[RowKeyOf(row)]
  {
    var keys := SortedKeys(s.rows.Keys);
    assert keys[i] in keys;
  }

  lemma EmittedRowValid(s: State, stampNs: nat, i: nat)
    requires Sound(s, stampNs / SECOND) && FitsInt64(Emitted(s, stampNs))
    requires i < |Emitted(s, stampNs).rows|
    ensures RowValid(Emitted(s, stampNs), Emitted(s, stampNs).rows[i])
  {
    var b := Emitted(s, stampNs);
    EmittedRow(s, stampNs, i);
    Floored(s.from);
    Floored(b.to);
    StartFits(stampNs, b.rows[i].start);
    assert 0 <= BucketOf(s.from);
  }

  lemma EmittedRowsValid(s: State, stampNs: nat)
    requires Sound(s, stampNs / SECOND) && FitsInt64(Emitted(s, stampNs))
    ensures forall row :: row in Emitted(s, stampNs).rows ==> RowValid(Emitted(s, stampNs), row)
  {
    var rows := Emitted(s, stampNs).rows;
    forall i | 0 <= i < |rows| ensures RowValid(Emitted(s, stampNs), rows[i]) {
      EmittedRowValid(s, stampNs, i);
    }
  }

  lemma StartFits(stampNs: nat, start: int)
    requires start <= stampNs / SECOND && stampNs <= MAX_COUNTER
    ensures start <= MAX_COUNTER
  {
  }

  lemma EmissionTime(stampNs: nat)
    ensures var to := stampNs / SECOND; to * SECOND <= stampNs < (to + 2) * SECOND && to <= stampNs
  {
  }

  /**
   The collector accepts what an honest journal writes exactly when the row limit and the clock allow it:
   the interval, the emission time, the alignment, range and uniqueness of the rows are always right.
   */
  lemma EmittedAccepted(s: State, stampNs: nat, collectorNow: int)
    requires Sound(s, stampNs / SECOND) && HexEpoch(s.epoch) && FitsInt64(Emitted(s, stampNs))
    ensures BatchValid(Emitted(s, stampNs), collectorNow) <==>
              |s.rows| <= 10002 && stampNs / SECOND <= collectorNow + 5
  {
    var b := Emitted(s, stampNs);
    EmissionTime(stampNs);
    EmittedRowsValid(s, stampNs);
    EmittedDistinct(s, stampNs);
  }

  lemma EmittedDistinct(s: State, stampNs: nat)
    ensures RowsDistinct(Emitted(s, stampNs))
  {
    var b, keys := Emitted(s, stampNs), SortedKeys(s.rows.Keys);
    assert forall i :: 0 <= i < |b.rows| ==> RowKeyOf(b.rows[i]) == keys[i];
  }

  /** Hence an interval that crosses at most one bucket boundary is never refused for its rows. */
  lemma OneBoundaryAccepted(s: State, stampNs: nat, collectorNow: int)
    requires Sound(s, stampNs / SECOND) && HexEpoch(s.epoch) && FitsInt64(Emitted(s, stampNs))
    requires BucketsIn(s.from, stampNs / SECOND) <= 2 && stampNs / SECOND <= collectorNow + 5
    ensures BatchValid(Emitted(s, stampNs), collectorNow)
  {
    RowsBounded(s, stampNs / SECOND);
    EmittedAccepted(s, stampNs, collectorNow);
  }

  // ---- the limit is reached ----

  /** A host name of one label that starts with a letter. */
  predicate PlainName(p: string) {
    0 < |p| <= 63 && 'a' <= p[0] <= 'z' && forall i :: 0 <= i < |p| ==> 'a' <= p[i] <= 'z' || '0' <= p[i] <= '9'
  }

  function Digit(d: int): (c: char)
    requires 0 <= d < 10
    ensures '0' <= c <= '9' && c as int == '0' as int + d
  {
    ('0' as int + d) as char
  }

  /** Short names with four digits. */
  function HostName(n: nat): string
    requires n < 10000
  {
    ['h', Digit(n / 10 / 10 / 10), Digit(n / 10 / 10 % 10), Digit(n / 10 % 10), Digit(n % 10)]
  }

  lemma HostNamesDiffer(a: nat, b: nat)
    requires a < b < 10000
    ensures HostName(a) != HostName(b)
  {
  }

  lemma HostNameIsPlain(n: nat)
    requires n < 10000
    ensures PlainName(HostName(n)) && |HostName(n)| == 5
  {
  }

  /** An amount that is counted and fits the engine's 64-bit fields. */
  predicate Countable(b: Bytes) { 0 < b.up <= MAX_COUNTER && 0 <= b.down <= MAX_COUNTER }

  /** An empty journal to which n hosts are added at one instant. */
  function Filled(s: State, b: Bytes, at: int, n: nat): State
    requires n <= 10000
  {
    if n == 0 then s else Added(Filled(s, b, at, n - 1), HostName(n - 1), b, at)
  }

  /** Every row so far belongs to one of the first n hosts. */
  ghost predicate HostRows(rows: map<Key, Bytes>, b: Bytes, at: int, n: nat)
    requires n <= 10000
  {
    |rows| == n && forall k :: k in rows ==> rows[k] == b && k.start == at && IsHost(k.domain, n)
  }

  ghost predicate IsHost(domain: string, n: nat)
    requires n <= 10000
  {
    exists i :: 0 <= i < n && domain == HostName(i)
  }

  /** Two journals that differ in their rows at most. */
  ghost predicate SameButRows(s: State, t: State) { t == s.(rows := t.rows) }

  lemma {:induction false} FilledRows(s: State, b: Bytes, at: int, n: nat)
    requires n <= 10000 && s.rows == map[] && s.from == at && at % BUCKET == 0 && Countable(b)
    ensures SameButRows(s, Filled(s, b, at, n)) && HostRows(Filled(s, b, at, n).rows, b, at, n)
  {
    if n > 0 {
      FilledRows(s, b, at, n - 1);
      FillNext(s, Filled(s, b, at, n - 1), b, at, n - 1);
    }
  }

  lemma FillNext(s: State, t: State, b: Bytes, at: int, n: nat)
    requires n < 10000 && s.from == at && at % BUCKET == 0 && Countable(b)
    requires SameButRows(s, t) && HostRows(t.rows, b, at, n)
    ensures var u := Added(t, HostName(n), b, at); SameButRows(s, u) && HostRows(u.rows, b, at, n + 1)
  {
    HostRowsGrow(t.rows, b, at, n);
    assert BucketOf(at) == at;
    AddsHost(t, b, at, HostName(n));
  }

  lemma HostRowsGrow(rows: map<Key, Bytes>, b: Bytes, at: int, n: nat)
    requires n < 10000 && HostRows(rows, b, at, n)
    ensures Key(at, HostName(n)) !in rows && HostRows(rows[Key(at, HostName(n)) := b], b, at, n + 1)
  {
    NewHost(n);
    AddedHostRows(rows, b, at, n, HostName(n));
  }

  lemma AddedHostRows(rows: map<Key, Bytes>, b: Bytes, at: int, n: nat, host: string)
    requires n < 10000 && HostRows(rows, b, at, n) && host == HostName(n) && !IsHost(host, n)
    ensures Key(at, host) !in rows && HostRows(rows[Key(at, host) := b], b, at, n + 1)
  {
    assert IsHost(host, n + 1);
    forall k | k in rows ensures IsHost(k.domain, n + 1) {
      LaterHost(k.domain, n);
    }
  }

  lemma NewHost(n: nat)
    requires n < 10000
    ensures !IsHost(HostName(n), n)
  {
    forall i | 0 <= i < n ensures HostName(i) != HostName(n) { HostNamesDiffer(i, n); }
  }

  lemma LaterHost(domain: string, n: nat)
    requires n < 10000 && IsHost(domain, n)
    ensures IsHost(domain, n + 1)
  {
  }

  lemma AddsHost(s: State, b: Bytes, at: int, host: string)
    requires s.from == at && BucketOf(at) == at && Countable(b) && |s.rows| < 10000 && Key(at, host) !in s.rows
    ensures Added(s, host, b, at) == s.(rows := s.rows[Key(at, host) := b])
  {
  }

  /** A full journal without the given host, whose fallback rows are all in buckets before `at`. */
  ghost predicate FullBefore(rows: map<Key, Bytes>, b: Bytes, host: string, at: int) {
    |rows| >= 10000 && forall k :: k in rows ==> rows[k] == b && EarlierRow(k, host, at)
  }

  ghost predicate EarlierRow(k: Key, host: string, at: int) {
    k.domain != host && (PlainName(k.domain) || (k.domain == DOMAIN_LIMIT && k.start < at))
  }

  lemma FilledIsFull(s: State, b: Bytes, host: string, at: int, n: nat)
    requires n == 10000 && s.rows == map[] && s.from == at && at % BUCKET == 0 && |host| != 5 && Countable(b)
    ensures var full := Filled(s, b, at, n);
            SameButRows(s, full) && |full.rows| == n && FullBefore(full.rows, b, host, at)
  {
    FilledRows(s, b, at, n);
    forall k | k in Filled(s, b, at, n).rows ensures EarlierRow(k, host, at) {
      assert IsHost(k.domain, n);
      var i :| 0 <= i < n && k.domain == HostName(i);
      HostNameIsPlain(i);
    }
  }

  lemma FallbackAdds(s: State, b: Bytes, host: string, at: int)
    requires at % BUCKET == 0 && s.from <= at && host != DOMAIN_LIMIT && Countable(b) && FullBefore(s.rows, b, host, at)
    ensures var after := Added(s, host, b, at);
            && SameButRows(s, after) && |after.rows| == |s.rows| + 1
            && FullBefore(after.rows, b, host, at + BUCKET)
  {
    assert BucketOf(at) == at;
    assert Key(at, DOMAIN_LIMIT) !in s.rows;
    assert Added(s, host, b, at).rows == s.rows[Key(at, DOMAIN_LIMIT) := b];
  }

  /** One more host, arriving in the bucket of `at` and in each of the buckets after it. */
  function Overfilled(s: State, b: Bytes, host: string, at: int, buckets: nat): State
    decreases buckets
  {
    if buckets == 0 then s else Overfilled(Added(s, host, b, at), b, host, at + BUCKET, buckets - 1)
  }

  lemma {:induction false} OverfilledRows(s: State, b: Bytes, host: string, at: int, buckets: nat)
    requires at % BUCKET == 0 && s.from <= at && host != DOMAIN_LIMIT && Countable(b) && FullBefore(s.rows, b, host, at)
    ensures var after := Overfilled(s, b, host, at, buckets);
            && SameButRows(s, after) && |after.rows| == |s.rows| + buckets
            && FullBefore(after.rows, b, host, at + buckets * BUCKET)
    decreases buckets
  {
    if buckets > 0 {
      FallbackAdds(s, b, host, at);
      OverfilledRows(Added(s, host, b, at), b, host, at + BUCKET, buckets - 1);
    }
  }

  lemma {:induction false} FilledSound(s: State, b: Bytes, at: nat, n: nat)
    requires n <= 10000 && Sound(s, at) && Countable(b)
    ensures Sound(Filled(s, b, at, n), at)
  {
    if n > 0 {
      FilledSound(s, b, at, n - 1);
      AddedSound(Filled(s, b, at, n - 1), HostName(n - 1), b, at, at);
    }
  }

  lemma {:induction false} OverfilledSound(s: State, b: Bytes, host: string, earlier: nat, at: nat, buckets: nat,
                                           last: nat)
    requires Sound(s, earlier) && earlier <= at && Countable(b)
    requires earlier <= last && at + buckets * BUCKET <= last + BUCKET
    ensures Sound(Overfilled(s, b, host, at, buckets), last)
    decreases buckets
  {
    if buckets == 0 {
      LaterSound(s, earlier, last);
    } else {
      AddedSound(s, host, b, earlier, at);
      OverfilledSound(Added(s, host, b, at), b, host, at, at + BUCKET, buckets - 1, last);
    }
  }

  /**
   What a journal holds after n hosts and one more in every bucket of an interval. The lemmas about it fix n at
   the capacity by an equation, so that the numeral is never the argument of a recursive function.
   */
  function Crowded(s: State, b: Bytes, host: string, at: int, n: nat, buckets: nat): State
    requires n <= 10000
  {
    Overfilled(Filled(s, b, at, n), b, host, at, buckets)
  }

  lemma CrowdedRows(s: State, b: Bytes, host: string, at: nat, n: nat, buckets: nat)
    requires n == 10000 && s.rows == map[] && s.from == at && at % BUCKET == 0
    requires PlainName(host) && |host| != 5 && buckets > 0 && Countable(b)
    ensures var after := Crowded(s, b, host, at, n, buckets);
            && SameButRows(s, after) && |after.rows| == 10000 + buckets
            && FullBefore(after.rows, b, host, at + buckets * BUCKET)
            && Sound(after, at + (buckets - 1) * BUCKET)
  {
    FilledIsFull(s, b, host, at, n);
    OverfilledRows(Filled(s, b, at, n), b, host, at, buckets);
    assert Named(s.rows) == {};
    FilledSound(s, b, at, n);
    OverfilledSound(Filled(s, b, at, n), b, host, at, at, buckets, at + (buckets - 1) * BUCKET);
  }

  lemma CrowdedBatch(s: State, b: Bytes, host: string, at: int, stampNs: nat)
    requires FullBefore(s.rows, b, host, at) && Countable(b)
    requires s.sequence < MAX_COUNTER && stampNs <= MAX_COUNTER
    ensures FitsInt64(Emitted(s, stampNs))
    ensures forall row :: row in Emitted(s, stampNs).rows ==> row.domain == DOMAIN_LIMIT || PlainName(row.domain)
  {
    var rows := Emitted(s, stampNs).rows;
    forall i | 0 <= i < |rows|
      ensures rows[i].bytes == b && (rows[i].domain == DOMAIN_LIMIT || PlainName(rows[i].domain))
    {
      EmittedRow(s, stampNs, i);
      assert EarlierRow(RowKeyOf(rows[i]), host, at);
    }
  }

  /**
   The bound on the rows is reached for every number of buckets, by adding ordinary host names to an empty
   journal. From three buckets on the collector refuses the batch, and the number of rows is its only objection.
   */
  lemma ThreeBucketsCanOverflow(s: State, b: Bytes, host: string, at: nat, n: nat, buckets: nat, stampNs: nat,
                                collectorNow: int)
    requires n == 10000 && s.rows == map[] && s.from == at && at % BUCKET == 0 && Countable(b)
    requires PlainName(host) && |host| != 5 && buckets > 0 && stampNs / SECOND == at + (buckets - 1) * BUCKET
    requires HexEpoch(s.epoch) && s.sequence < MAX_COUNTER && stampNs <= MAX_COUNTER
    ensures var after := Crowded(s, b, host, at, n, buckets);
            var batch := Emitted(after, stampNs);
            && |after.rows| == 10000 + BucketsIn(s.from, stampNs / SECOND) == 10000 + buckets
            && (forall row :: row in batch.rows ==>
                  RowValid(batch, row) && (row.domain == DOMAIN_LIMIT || PlainName(row.domain)))
            && (BatchValid(batch, collectorNow) <==> buckets <= 2 && stampNs / SECOND <= collectorNow + 5)
  {
    CrowdedRows(s, b, host, at, n, buckets);
    WholeBuckets(at, buckets);
    CrowdedAccepted(Crowded(s, b, host, at, n, buckets), b, host, at + buckets * BUCKET, stampNs, collectorNow);
  }

  lemma CrowdedAccepted(s: State, b: Bytes, host: string, at: int, stampNs: nat, collectorNow: int)
    requires FullBefore(s.rows, b, host, at) && Countable(b) && Sound(s, stampNs / SECOND)
    requires HexEpoch(s.epoch) && s.sequence < MAX_COUNTER && stampNs <= MAX_COUNTER
    ensures var batch := Emitted(s, stampNs);
            && (forall row :: row in batch.rows ==>
                  RowValid(batch, row) && (row.domain == DOMAIN_LIMIT || PlainName(row.domain)))
            && (BatchValid(batch, collectorNow) <==> |s.rows| <= 10002 && stampNs / SECOND <= collectorNow + 5)
  {
    CrowdedBatch(s, b, host, at, stampNs);
    EmittedRowsValid(s, stampNs);
    EmittedAccepted(s, stampNs, collectorNow);
  }

  lemma WholeBuckets(at: int, buckets: nat)
    requires at % BUCKET == 0 && buckets > 0
    ensures BucketsIn(at, at + (buckets - 1) * BUCKET) == buckets
  {
  }
}
