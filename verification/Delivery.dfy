/** What the engine receives for a host in a bucket is what the collector stores for it. */
module Delivery {
  import opened Sums
  import opened Calendar
  import opened Ordering
  import opened Database
  import opened Journal
  import opened Placement

  // ---- one arrival ----

  /** The bucket an instant lies in. */
  ghost predicate InBucket(start: int, at: int) { start % BUCKET == 0 && start <= at < start + BUCKET }

  /** The row that receives an arrival: the host's own one, or the fallback row of the bucket when the journal is full. */
  function Receiver(s: State, host: string, start: int): Key {
    if Key(start, host) in s.rows || |s.rows| < 10000 then Key(start, host) else Key(start, DOMAIN_LIMIT)
  }

  lemma BucketIs(start: int, at: int)
    requires InBucket(start, at)
    ensures BucketOf(at) == start
  {
  }

  /** Adding changes exactly that row, in the bucket of the later of the clock and the start of the interval. */
  lemma AddedExactly(s: State, host: string, b: Bytes, now: int, start: int)
    requires (0 < b.up || 0 < b.down) && InBucket(start, Max(now, s.from))
    ensures var after, key := Added(s, host, b, now), Receiver(s, host, start);
            && SameButRows(s, after) && after.rows.Keys == s.rows.Keys + {key}
            && after.rows[key] == Bytes(At(s.rows, key).up + b.up, At(s.rows, key).down + b.down)
            && forall k :: k in s.rows && k != key ==> after.rows[k] == s.rows[k]
  {
    BucketIs(start, Max(now, s.from));
  }

  // ---- many arrivals ----

  datatype Arrival = Arrival(host: string, bytes: Bytes, now: int)

  function AddAll(s: State, arrivals: seq<Arrival>, n: nat): State
    requires n <= |arrivals|
  {
    if n == 0 then s
    else
      var a := arrivals[n - 1];
      Added(AddAll(s, arrivals, n - 1), a.host, a.bytes, a.now)
  }

  /** The bytes that arrived for one host in one bucket of an interval. */
  function Received(arrivals: seq<Arrival>, from: int, key: Key, dir: Direction, n: nat): int
    requires n <= |arrivals|
  {
    if n == 0 then 0
    else
      var a := arrivals[n - 1];
      var counts := (0 < a.bytes.up || 0 < a.bytes.down) && a.host == key.domain && BucketOf(Max(a.now, from)) == key.start;
      Received(arrivals, from, key, dir, n - 1) + (if counts then a.bytes.Of(dir) else 0)
  }

  /** The fallback row was never used. */
  ghost predicate NoFallback(s: State) {
    forall k :: k in s.rows ==> k.domain != DOMAIN_LIMIT
  }

  lemma AddedOne(s: State, host: string, b: Bytes, now: int, key: Key, dir: Direction)
    requires host != DOMAIN_LIMIT && NoFallback(Added(s, host, b, now))
    ensures NoFallback(s) && SameButRows(s, Added(s, host, b, now))
    ensures At(Added(s, host, b, now).rows, key).Of(dir) ==
            At(s.rows, key).Of(dir) +
            (if (0 < b.up || 0 < b.down) && host == key.domain && BucketOf(Max(now, s.from)) == key.start
             then b.Of(dir) else 0)
  {
    if 0 < b.up || 0 < b.down {
      var start := BucketOf(Max(now, s.from));
      Floored(Max(now, s.from));
      AddedExactly(s, host, b, now, start);
      var receiver := Receiver(s, host, start);
      assert receiver in Added(s, host, b, now).rows;
    }
  }

  /** Without the fallback every row holds exactly what arrived for its host in its bucket. */
  lemma {:induction false} AddedAll(s: State, arrivals: seq<Arrival>, key: Key, dir: Direction, n: nat)
    requires n <= |arrivals| && s.rows == map[] && NoFallback(AddAll(s, arrivals, n))
    requires forall i :: 0 <= i < |arrivals| ==> arrivals[i].host != DOMAIN_LIMIT
    ensures SameButRows(s, AddAll(s, arrivals, n))
    ensures At(AddAll(s, arrivals, n).rows, key).Of(dir) == Received(arrivals, s.from, key, dir, n)
  {
    if n > 0 {
      var a := arrivals[n - 1];
      AddedOne(AddAll(s, arrivals, n - 1), a.host, a.bytes, a.now, key, dir);
      AddedAll(s, arrivals, key, dir, n - 1);
    }
  }

  // ---- the batch and the table ----

  lemma {:induction false} RowsHold(rows: map<Key, Bytes>, keys: seq<Key>, key: Key, dir: Direction, n: nat)
    requires n <= |keys| && Distinct(keys)
    ensures RowsOf(RowsFor(rows, keys), key, dir, n) == if key in keys[..n] then At(rows, key).Of(dir) else 0
  {
    if n > 0 {
      RowsHold(rows, keys, key, dir, n - 1);
      assert keys[..n] == keys[..n - 1] + [keys[n - 1]];
      assert RowKeyOf(RowsFor(rows, keys)[n - 1]) == keys[n - 1];
      if keys[n - 1] == key {
        assert key !in keys[..n - 1];
      }
    }
  }

  /** A flushed batch holds for every host in every bucket exactly what the journal held. */
  lemma EmittedHolds(s: State, stampNs: nat, key: Key, dir: Direction)
    ensures var b := Emitted(s, stampNs); RowsOf(b.rows, key, dir, |b.rows|) == At(s.rows, key).Of(dir)
  {
    var keys := SortedKeys(s.rows.Keys);
    RowsHold(s.rows, keys, key, dir, |keys|);
    assert keys[..|keys|] == keys;
  }

  /**
   From the traffic to the table: after the journal is flushed and its batch imported, the table holds for a host in
   a bucket exactly the bytes that arrived for it there, on top of what it held before.
   */
  lemma StoredAsReceived(s: State, arrivals: seq<Arrival>, stampNs: nat, db: Db, key: Key, dir: Direction)
    requires s.rows == map[] && NoFallback(AddAll(s, arrivals, |arrivals|))
    requires forall i :: 0 <= i < |arrivals| ==> arrivals[i].host != DOMAIN_LIMIT
    requires ImportOutcome(db, Emitted(AddAll(s, arrivals, |arrivals|), stampNs)).Committed?
    requires Cutoff(stampNs / SECOND) <= key.start
    ensures var b := Emitted(AddAll(s, arrivals, |arrivals|), stampNs);
            && b.to == stampNs / SECOND && 0 <= b.to
            && At(Import(db, b).domainBuckets, key).Of(dir) ==
               At(db.domainBuckets, key).Of(dir) + Received(arrivals, s.from, key, dir, |arrivals|)
  {
    var t := AddAll(s, arrivals, |arrivals|);
    AddedAll(s, arrivals, key, dir, |arrivals|);
    EmittedHolds(t, stampNs, key, dir);
    ImportPlaces(db, Emitted(t, stampNs), key, dir);
  }
}
