/** Every step of the accounting protocol keeps its invariant. */
module Invariance {
  import opened Sums
  import opened Calendar
  import opened Ordering
  import opened Wrappers
  import opened Database
  import opened Attribution
  import opened Conservation
  import opened Coverage
  import opened Journal
  import opened History
  import opened Protocol

  lemma InitialInv(s: System)
    requires IsInitial(s)
    ensures Inv(s)
  {
  }

  // ---- publishing a batch ----

  /** What an honest journal emits is honest. */
  lemma EmittedHonest(j: State, stampNs: nat)
    requires Sound(j, stampNs / SECOND)
    ensures WellFormed(Emitted(j, stampNs))
  {
    EmittedDistinct(j, stampNs);
    RowsBounded(j, stampNs / SECOND);
    var b := Emitted(j, stampNs);
    forall i | 0 <= i < |b.rows|
      ensures b.rows[i].start % BUCKET == 0 && BucketOf(b.from) <= b.rows[i].start <= BucketOf(b.to)
      ensures b.rows[i].bytes.NonNegative()
    {
      EmittedRow(j, stampNs, i);
    }
  }

  /** A batch that may come after a history. */
  ghost predicate Appendable(h: seq<Batch>, clock: nat, b: Batch) {
    && WellFormed(b) && clock < b.emittedNs
    && Follows(h + [b], |h|)
  }

  lemma PublishHistory(h: seq<Batch>, started: seq<string>, clock: nat, b: Batch, after: seq<string>)
    requires HistoryOk(h, started, clock) && Appendable(h, clock, b)
    requires b.epoch in after && forall e :: e in started ==> e in after
    ensures HistoryOk(h + [b], after, b.emittedNs)
  {
    assert HonestAt(h + [b], |h|);
    HonestAppend(h, b);
  }

  lemma PublishSpool(h: seq<Batch>, imported: nat, spool: map<File, Batch>, deleted: map<File, Batch>, b: Batch)
    requires SpoolOk(h, imported, spool, deleted) && Honest(h + [b])
    ensures SpoolOk(h + [b], imported, spool[FileOf(b) := b], deleted)
  {
    var g := h + [b];
    assert g[..imported] == h[..imported];
    var after := spool[FileOf(b) := b];
    forall f | f in after ensures FromHistory(after, f, g) {
      if f != FileOf(b) {
        assert FromHistory(spool, f, h);
      } else {
        assert g[|h|] == b;
      }
    }
    forall k | imported <= k < |g| ensures Filed(g, after, k) {
      if k < |h| {
        assert Filed(h, spool, k);
        if FileOf(g[k]) == FileOf(b) {
          NamesUnique(g, k, |h|);
        }
      }
    }
  }

  lemma PublishDrain(h: seq<Batch>, imported: nat, spool: map<File, Batch>, collector: Option<Drain>, b: Batch)
    requires DrainOk(h, imported, spool, collector) && Honest(h + [b])
    requires AllFromHistory(spool, h)
    ensures DrainOk(h + [b], imported, spool[FileOf(b) := b], collector)
  {
    if collector.Some? {
      var queue := collector.value.queue;
      var d: nat :| QueueOk(h, imported, spool, collector.value, d);
      var g, n := h + [b], imported + (|queue| - d);
      assert g[imported..n] == h[imported..n] && g[..imported] == h[..imported];
      forall i | 0 <= i < |queue| ensures queue[i].file != FileOf(b) {
        assert FromHistory(spool, queue[i].file, h);
        var k :| 0 <= k < |h| && h[k] == spool[queue[i].file];
        if queue[i].file == FileOf(b) {
          NamesUnique(g, k, |h|);
        }
      }
      assert QueueOk(g, imported, spool[FileOf(b) := b], collector.value, d);
    }
  }

  lemma PublishDb(h: seq<Batch>, imported: nat, clock: nat, db: Db, b: Batch)
    requires DbOk(h, imported, clock, db) && clock <= b.emittedNs
    requires h == [] ==> clock / SECOND <= b.from
    ensures DbOk(h + [b], imported, b.emittedNs, db)
  {
    var g := h + [b];
    assert g[..imported] == h[..imported];
    EpochsPrefix(h, g, imported);
    ClockDivides(clock, b.emittedNs);
  }

  lemma ClockDivides(a: nat, b: nat)
    requires a <= b
    ensures a / SECOND <= b / SECOND
  {
  }

  lemma {:induction false} TotalPrefix(h: seq<Batch>, g: seq<Batch>, n: nat, dir: Direction)
    requires n <= |h| && n <= |g| && h[..n] == g[..n]
    ensures HistoryTotal(h, n, dir) == HistoryTotal(g, n, dir)
  {
    if n > 0 {
      assert h[n - 1] == h[..n][n - 1] && g[n - 1] == g[..n][n - 1];
      assert h[..n - 1] == h[..n][..n - 1] && g[..n - 1] == g[..n][..n - 1];
      TotalPrefix(h, g, n - 1, dir);
    }
  }

  lemma AppendTotal(h: seq<Batch>, b: Batch, imported: nat, dir: Direction)
    requires imported <= |h|
    ensures HistoryTotal(h + [b], |h| + 1, dir) == HistoryTotal(h, |h|, dir) + BatchTotal(b, dir)
    ensures HistoryTotal(h + [b], imported, dir) == HistoryTotal(h, imported, dir)
  {
    var g := h + [b];
    assert g[..|h|] == h[..|h|] && g[..imported] == h[..imported];
    TotalPrefix(h, g, |h|, dir);
    TotalPrefix(h, g, imported, dir);
  }

  // ---- engine steps ----

  lemma ArrivalEngine(h: seq<Batch>, started: seq<string>, clock: nat, e: Engine, ns: nat, host: string, bytes: Bytes)
    requires EngineOk(h, started, clock, Some(e)) && clock <= ns && bytes.NonNegative()
    ensures var after := e.(journal := Added(e.journal, host, bytes, ns / SECOND));
            && EngineOk(h, started, ns, Some(after))
            && Unsaved(after) == Bytes(Unsaved(e).up + bytes.up, Unsaved(e).down + bytes.down)
  {
    ClockDivides(clock, ns);
    AddedSound(e.journal, host, bytes, clock / SECOND, ns / SECOND);
    AddedTotal(e.journal, host, bytes, ns / SECOND, Upload);
    AddedTotal(e.journal, host, bytes, ns / SECOND, Download);
  }

  lemma LaterDb(h: seq<Batch>, imported: nat, clock: nat, ns: nat, db: Db)
    requires DbOk(h, imported, clock, db) && clock <= ns
    ensures DbOk(h, imported, ns, db)
  {
    ClockDivides(clock, ns);
  }

  lemma LaterEngine(h: seq<Batch>, started: seq<string>, clock: nat, ns: nat, engine: Option<Engine>)
    requires EngineOk(h, started, clock, engine) && clock <= ns
    ensures EngineOk(h, started, ns, engine)
  {
    if engine.Some? {
      ClockDivides(clock, ns);
      LaterSound(engine.value.journal, clock / SECOND, ns / SECOND);
    }
  }

  lemma ArrivalKeeps(s: System, ns: nat, host: string, bytes: Bytes)
    requires Inv(s) && Enabled(s, BytesArrive(ns, host, bytes))
    ensures Inv(AfterArrival(s, ns, host, bytes))
  {
    ArrivalEngine(s.history, s.started, s.clock, s.engine.value, ns, host, bytes);
    LaterDb(s.history, s.imported, s.clock, ns, s.db);
  }

  lemma ArrivalBalances(s: System, ns: nat, host: string, bytes: Bytes, dir: Direction)
    requires s.engine.Some? && bytes.NonNegative() && Balanced(s, dir)
    ensures Balanced(AfterArrival(s, ns, host, bytes), dir)
  {
    AddedTotal(s.engine.value.journal, host, bytes, ns / SECOND, dir);
  }

  // ---- flushing ----

  lemma PublishLoss(h: seq<Batch>, started: seq<string>, after: seq<string>, books: Books, b: Batch)
    requires LossOk(h, started, started != [], books) && started <= after && after != [] && FirstOnce(after)
    requires forall i :: 0 <= i < |h| ==> h[i].epoch in started
    requires b.unclean <==> b.sequence == 1 && b.epoch != after[0]
    ensures LossOk(h + [b], after, true, books)
  {
  }

  /** Whatever a step publishes, everything but the engine stays in order. */
  lemma PublishKeeps(s: System, b: Batch, started: seq<string>)
    requires Inv(s) && Appendable(s.history, s.clock, b) && b.epoch in started
    requires s.started <= started && FirstOnce(started) && started != []
    requires s.history == [] ==> s.clock / SECOND <= b.from
    requires b.unclean <==> b.sequence == 1 && b.epoch != started[0]
    ensures var t := Published(s, Some(b));
            && HistoryOk(t.history, started, b.emittedNs)
            && SpoolOk(t.history, t.imported, t.spool, t.deleted)
            && DrainOk(t.history, t.imported, t.spool, t.collector)
            && DbOk(t.history, t.imported, b.emittedNs, t.db)
            && LossOk(t.history, started, true, t.books)
  {
    PublishHistory(s.history, s.started, s.clock, b, started);
    PublishSpool(s.history, s.imported, s.spool, s.deleted, b);
    PublishDrain(s.history, s.imported, s.spool, s.collector, b);
    PublishDb(s.history, s.imported, s.clock, s.db, b);
    PublishLoss(s.history, s.started, started, s.books, b);
  }

  /** A working engine's next batch continues history. */
  lemma NextAppendable(h: seq<Batch>, started: seq<string>, clock: nat, e: Engine, stampNs: nat)
    requires HistoryOk(h, started, clock) && EngineOk(h, started, clock, Some(e)) && !e.failed && clock < stampNs
    requires e.journal.from <= stampNs / SECOND
    ensures Appendable(h, clock, Emitted(e.journal, stampNs)) && Emitted(e.journal, stampNs).sequence > 1
    ensures !Emitted(e.journal, stampNs).unclean
    ensures e.journal.epoch in started
  {
    SequencePositive(h, |h| - 1);
    ClockDivides(clock, stampNs);
    LaterSound(e.journal, clock / SECOND, stampNs / SECOND);
    EmittedHonest(e.journal, stampNs);
  }

  lemma FlushedEngine(h: seq<Batch>, started: seq<string>, clock: nat, e: Engine, stampNs: nat)
    requires EngineOk(h, started, clock, Some(e)) && !e.failed && clock <= stampNs
    ensures var b := Emitted(e.journal, stampNs);
            var after := Engine(Flushed(e.journal, stampNs), false, Bytes(0, 0));
            EngineOk(h + [b], started, stampNs, Some(after))
  {
    FlushedSound(e.journal, stampNs);
    var none: map<Key, Bytes> := map[];
    assert Sum(none, Upload) == 0 && Sum(none, Download) == 0;
  }

  /** After a failed flush the rows are still in memory, and are no longer at risk if they became visible. */
  lemma FailedEngine(h: seq<Batch>, g: seq<Batch>, started: seq<string>, clock: nat, e: Engine, stampNs: nat,
                     visible: bool)
    requires EngineOk(h, started, clock, Some(e)) && clock <= stampNs
    ensures EngineOk(g, started, stampNs,
                     Some(Engine(e.journal, true, if visible then Memory(e.journal.rows) else e.durable)))
  {
    LaterEngine(h, started, clock, stampNs, Some(e));
  }

  lemma FlushSucceeds(s: System, stampNs: nat)
    requires Inv(s) && s.engine.Some? && !s.engine.value.failed && s.clock < stampNs
    requires s.engine.value.journal.from <= stampNs / SECOND
    ensures var b := Emitted(s.engine.value.journal, stampNs);
            Inv(Published(s, Some(b)).(clock := stampNs, unsynced := false,
                engine := Some(Engine(Flushed(s.engine.value.journal, stampNs), false, Bytes(0, 0)))))
  {
    var e := s.engine.value;
    NextAppendable(s.history, s.started, s.clock, e, stampNs);
    PublishKeeps(s, Emitted(e.journal, stampNs), s.started);
    FlushedEngine(s.history, s.started, s.clock, e, stampNs);
  }

  lemma FlushFailsVisibly(s: System, stampNs: nat)
    requires Inv(s) && s.engine.Some? && !s.engine.value.failed && s.clock < stampNs
    requires s.engine.value.journal.from <= stampNs / SECOND
    ensures var journal := s.engine.value.journal;
            Inv(Published(s, Some(Emitted(journal, stampNs))).(clock := stampNs, unsynced := true,
                engine := Some(Engine(journal, true, Memory(journal.rows)))))
  {
    var e := s.engine.value;
    var b := Emitted(e.journal, stampNs);
    NextAppendable(s.history, s.started, s.clock, e, stampNs);
    PublishKeeps(s, b, s.started);
    FailedEngine(s.history, s.history + [b], s.started, s.clock, e, stampNs, true);
  }

  lemma FlushFails(s: System, stampNs: nat)
    requires Inv(s) && s.engine.Some? && !s.engine.value.failed && s.clock < stampNs
    ensures Inv(s.(clock := stampNs, unsynced := false, engine := Some(s.engine.value.(failed := true))))
  {
    var e := s.engine.value;
    LaterDb(s.history, s.imported, s.clock, stampNs, s.db);
    FailedEngine(s.history, s.history, s.started, s.clock, e, stampNs, false);
  }

  lemma TickKeeps(s: System, stampNs: nat, entries: nat, fault: Fault)
    requires Inv(s) && Enabled(s, EngineFlushes(stampNs, entries, fault))
    ensures Inv(AfterTick(s, stampNs, entries, fault))
  {
    if entries > 10000 || stampNs / SECOND < s.engine.value.journal.from || fault.BeforeRename? {
      FlushFails(s, stampNs);
    } else if fault.AfterRename? {
      FlushFailsVisibly(s, stampNs);
    } else {
      FlushSucceeds(s, stampNs);
    }
  }

  lemma PublishBalances(h: seq<Batch>, imported: nat, db: Db, books: Books, engine: Option<Engine>,
                        b: Batch, after: Option<Engine>, dir: Direction)
    requires imported <= |h| && EngineBalance(h, engine, books, dir) && StoreBalance(h, imported, db, books, dir)
    requires InMemory(after, dir) + BatchTotal(b, dir) == InMemory(engine, dir)
    ensures EngineBalance(h + [b], after, books, dir) && StoreBalance(h + [b], imported, db, books, dir)
  {
    AppendTotal(h, b, imported, dir);
  }

  lemma NothingInMemory(j: State, dir: Direction)
    requires j.rows == map[]
    ensures InMemory(Some(Engine(j, false, Bytes(0, 0))), dir) == 0 && Sum(j.rows, dir) == 0
  {
    assert dir == Upload || dir == Download;
  }

  /** A batch on its way out takes its bytes out of memory, whether or not its rows are kept there. */
  lemma FlushedMemory(e: Engine, stampNs: nat, failed: bool, dir: Direction)
    requires e.durable == Bytes(0, 0)
    ensures var j := e.journal;
            var after := if failed then Engine(j, true, Memory(j.rows))
                         else Engine(Flushed(j, stampNs), false, Bytes(0, 0));
            InMemory(Some(after), dir) + BatchTotal(Emitted(j, stampNs), dir) == InMemory(Some(e), dir)
  {
    EmittedTotal(e.journal, stampNs, dir);
    NothingInMemory(Flushed(e.journal, stampNs), dir);
  }

  /** Flushing moves bytes from memory to the spool, and a failed flush loses none. */
  lemma TickBalances(s: System, stampNs: nat, entries: nat, fault: Fault, dir: Direction)
    requires s.engine.Some? && s.engine.value.durable == Bytes(0, 0) && Balanced(s, dir)
    ensures Balanced(AfterTick(s, stampNs, entries, fault), dir)
  {
    var e := s.engine.value;
    var t := AfterTick(s, stampNs, entries, fault);
    if FlushResultOf(e.journal, stampNs, entries, fault).visible.Some? {
      FlushedMemory(e, stampNs, fault.AfterRename?, dir);
      PublishBalances(s.history, s.imported, s.db, s.books, s.engine, Emitted(e.journal, stampNs), t.engine, dir);
    }
  }

  // ---- starting ----

  /** The first flush of an engine, with nothing in memory yet. */
  lemma FirstAppendable(h: seq<Batch>, started: seq<string>, clock: nat, j: State, ns: nat, stampNs: nat)
    requires HistoryOk(h, started, clock) && clock < ns < stampNs
    requires j.rows == map[] && j.sequence == 0 && j.from == ns / SECOND && j.epoch !in started
    ensures Sound(j, stampNs / SECOND) && Appendable(h, clock, Emitted(j, stampNs))
    ensures clock / SECOND <= j.from <= stampNs / SECOND
  {
    ClockDivides(clock, ns);
    ClockDivides(ns, stampNs);
    assert Named(j.rows) == {};
    EmittedHonest(j, stampNs);
    if h != [] {
      assert HonestAt(h, |h| - 1);
      ClockDivides(h[|h| - 1].emittedNs, ns);
    }
  }

  lemma MarkKeeps(s: System, stampNs: nat, epoch: string, unsynced: bool)
    requires Inv(s) && s.engine.None? && s.clock < stampNs && epoch !in s.started
    ensures Inv(s.(clock := stampNs, started := s.started + [epoch], marker := true, unsynced := unsynced))
  {
    LaterDb(s.history, s.imported, s.clock, stampNs, s.db);
    assert s.started != [] ==> (s.started + [epoch])[0] == s.started[0];
  }

  lemma FirstBatchMarked(s: System, epoch: string)
    requires Inv(s) && epoch !in s.started
    ensures var after := s.started + [epoch];
            after != [] && FirstOnce(after) && s.started <= after && epoch in after
            && (epoch != after[0] <==> s.marker)
  {
  }

  lemma FirstFlushShows(s: System, j: State, ns: nat, stampNs: nat, ok: bool)
    requires Inv(s) && s.engine.None? && s.clock < ns < stampNs
    requires j == State(j.epoch, 0, ns / SECOND, s.marker, map[]) && j.epoch !in s.started
    ensures var b := Emitted(j, stampNs);
            Inv(Published(s, Some(b)).(clock := stampNs, started := s.started + [j.epoch], marker := true,
                unsynced := !ok,
                engine := if ok then Some(Engine(Flushed(j, stampNs), false, Bytes(0, 0))) else None))
  {
    FirstAppendable(s.history, s.started, s.clock, j, ns, stampNs);
    FirstBatchMarked(s, j.epoch);
    PublishKeeps(s, Emitted(j, stampNs), s.started + [j.epoch]);
    FlushedSound(j, stampNs);
    var none: map<Key, Bytes> := map[];
    assert Sum(none, Upload) == 0 && Sum(none, Download) == 0;
  }

  lemma StartKeeps(s: System, ns: nat, stampNs: nat, epoch: string, entries: nat, stop: Stop)
    requires Inv(s) && Enabled(s, EngineStarts(ns, stampNs, epoch, entries, stop))
    ensures Inv(AfterStart(s, ns, stampNs, epoch, entries, stop))
  {
    if stop.BeforeMarker? {
      LaterDb(s.history, s.imported, s.clock, stampNs, s.db);
    } else if stop.AtMarker? {
      MarkKeeps(s, stampNs, epoch, s.unsynced);
    } else {
      FirstFlushKeeps(s, ns, stampNs, epoch, entries, stop.fault);
    }
  }

  lemma FirstFlushKeeps(s: System, ns: nat, stampNs: nat, epoch: string, entries: nat, fault: Fault)
    requires Inv(s) && Enabled(s, EngineStarts(ns, stampNs, epoch, entries, AtFlush(fault)))
    ensures Inv(FirstFlush(s, ns, stampNs, epoch, entries, fault))
  {
    var j := State(epoch, 0, ns / SECOND, s.marker, map[]);
    if FlushResultOf(j, stampNs, entries, fault).visible.None? {
      MarkKeeps(s, stampNs, epoch, false);
    } else {
      FirstFlushShows(s, j, ns, stampNs, fault.NoFault?);
    }
  }

  lemma FirstFlushBalances(s: System, ns: nat, stampNs: nat, epoch: string, entries: nat, fault: Fault, dir: Direction)
    requires s.engine.None? && Balanced(s, dir)
    ensures Balanced(FirstFlush(s, ns, stampNs, epoch, entries, fault), dir)
  {
    var j := State(epoch, 0, ns / SECOND, s.marker, map[]);
    var t := FirstFlush(s, ns, stampNs, epoch, entries, fault);
    EmittedTotal(j, stampNs, dir);
    NothingInMemory(j, dir);
    NothingInMemory(AfterFlush(j, stampNs, entries, fault), dir);
    if FlushResultOf(j, stampNs, entries, fault).visible.Some? {
      PublishBalances(s.history, s.imported, s.db, s.books, s.engine, Emitted(j, stampNs), t.engine, dir);
    }
  }

  lemma StartBalances(s: System, ns: nat, stampNs: nat, epoch: string, entries: nat, stop: Stop, dir: Direction)
    requires s.engine.None? && Balanced(s, dir)
    ensures Balanced(AfterStart(s, ns, stampNs, epoch, entries, stop), dir)
  {
    if stop.AtFlush? {
      FirstFlushBalances(s, ns, stampNs, epoch, entries, stop.fault, dir);
    }
  }

  // ---- dying ----

  lemma DeathKeeps(s: System)
    requires Inv(s) && s.engine.Some?
    ensures Inv(AfterDeath(s))
  {
    assert s.engine.value.journal.epoch in s.started;
  }

  lemma DeathBalances(s: System, dir: Direction)
    requires s.engine.Some? && Balanced(s, dir)
    ensures Balanced(AfterDeath(s), dir)
  {
    var e := s.engine.value;
    SumUpsert(s.books.lost, dir, e.journal.epoch, Unsaved(e));
  }

  lemma {:induction false} RowsTotalNonNegative(b: Batch, dir: Direction, n: nat)
    requires RowsNonNegative(b) && n <= |b.rows|
    ensures 0 <= RowsTotal(b.rows, dir, n)
  {
    if n > 0 {
      RowsTotalNonNegative(b, dir, n - 1);
    }
  }

  lemma VanishSpool(h: seq<Batch>, imported: nat, spool: map<File, Batch>, deleted: map<File, Batch>)
    requires SpoolOk(h, imported, spool, deleted) && Honest(h) && imported < |h|
    ensures var n := |h| - 1; SpoolOk(h[..n], imported, spool - {FileOf(h[n])}, deleted)
  {
    var n := |h| - 1;
    var g, left := h[..n], spool - {FileOf(h[n])};
    assert g[..imported] == h[..imported];
    forall f | f in left ensures FromHistory(left, f, g) {
      assert FromHistory(spool, f, h);
      var k :| 0 <= k < |h| && h[k] == spool[f];
      assert g[k] == h[k];
    }
    forall k | imported <= k < n ensures Filed(g, left, k) {
      assert Filed(h, spool, k);
      if FileOf(h[k]) == FileOf(h[n]) {
        NamesUnique(h, k, n);
      }
    }
  }

  lemma VanishDb(h: seq<Batch>, imported: nat, clock: nat, db: Db)
    requires DbOk(h, imported, clock, db) && imported < |h|
    ensures DbOk(h[..|h| - 1], imported, clock, db)
  {
    var g := h[..|h| - 1];
    assert g[..imported] == h[..imported];
    EpochsPrefix(h, g, imported);
  }

  lemma VanishHistory(h: seq<Batch>, started: seq<string>, clock: nat)
    requires HistoryOk(h, started, clock) && h != []
    ensures HistoryOk(h[..|h| - 1], started, clock)
  {
    HonestPrefix(h, |h| - 1);
    if |h| > 1 {
      EmittedLater(h, |h| - 2, |h| - 1);
    }
  }

  lemma VanishParts(h: seq<Batch>, started: seq<string>, clock: nat, marker: bool, imported: nat,
                    spool: map<File, Batch>, deleted: map<File, Batch>, db: Db, books: Books)
    requires HistoryOk(h, started, clock) && SpoolOk(h, imported, spool, deleted) && DbOk(h, imported, clock, db)
    requires LossOk(h, started, marker, books) && imported < |h|
    ensures var n := |h| - 1;
            var bytes := Bytes(BatchTotal(h[n], Upload), BatchTotal(h[n], Download));
            && HistoryOk(h[..n], started, clock) && SpoolOk(h[..n], imported, spool - {FileOf(h[n])}, deleted)
            && DbOk(h[..n], imported, clock, db)
            && LossOk(h[..n], started, marker, books.(lost := Upsert(books.lost, h[n].epoch, bytes)))
  {
    VanishHistory(h, started, clock);
    VanishSpool(h, imported, spool, deleted);
    VanishDb(h, imported, clock, db);
    VanishLoss(h, started, clock, marker, books);
  }

  lemma VanishKeeps(s: System)
    requires Inv(s) && s.engine.None? && s.imported < |s.history|
    ensures Inv(AfterVanishing(s))
  {
    VanishParts(s.history, s.started, s.clock, s.marker, s.imported, s.spool, s.deleted, s.db, s.books);
    var t := AfterVanishing(s);
    assert HistoryOk(t.history, t.started, t.clock) && DbOk(t.history, t.imported, t.clock, t.db);
  }

  lemma VanishLoss(h: seq<Batch>, started: seq<string>, clock: nat, marker: bool, books: Books)
    requires HistoryOk(h, started, clock) && LossOk(h, started, marker, books) && h != []
    ensures var last := h[|h| - 1];
            var bytes := Bytes(BatchTotal(last, Upload), BatchTotal(last, Download));
            LossOk(h[..|h| - 1], started, marker, books.(lost := Upsert(books.lost, last.epoch, bytes)))
  {
    var last := h[|h| - 1];
    assert HonestAt(h, |h| - 1);
    RowsTotalNonNegative(last, Upload, |last.rows|);
    RowsTotalNonNegative(last, Download, |last.rows|);
  }

  lemma VanishBalances(s: System, dir: Direction)
    requires s.imported < |s.history| && Balanced(s, dir)
    ensures Balanced(AfterVanishing(s), dir)
  {
    var n := |s.history| - 1;
    var last := s.history[n];
    SumUpsert(s.books.lost, dir, last.epoch, Bytes(BatchTotal(last, Upload), BatchTotal(last, Download)));
    assert s.history == s.history[..n] + [last];
    AppendTotal(s.history[..n], last, s.imported, dir);
  }

  // ---- the collector ----

  lemma ListedKeys(h: seq<Batch>, imported: nat, spool: map<File, Batch>, deleted: map<File, Batch>)
    requires SpoolOk(h, imported, spool, deleted)
    ensures Elements(KeysOf(h[imported..])) <= Listed(spool) <= Elements(KeysOf(h))
  {
    forall k | k in Elements(KeysOf(h[imported..])) ensures k in Listed(spool) {
      var i :| 0 <= i < |h| - imported && KeysOf(h[imported..])[i] == k;
      assert h[imported..][i] == h[imported + i];
      assert Filed(h, spool, imported + i);
    }
    forall k | k in Listed(spool) ensures k in Elements(KeysOf(h)) {
      var f :| f in spool && k == SortKeyOf(spool[f]);
      assert FromHistory(spool, f, h);
      var i :| 0 <= i < |h| && h[i] == spool[f];
      assert KeysOf(h)[i] == k;
    }
  }

  lemma ListedFiles(h: seq<Batch>, spool: map<File, Batch>, queue: seq<SortKey>)
    requires AllFromHistory(spool, h) && Elements(queue) == Listed(spool)
    ensures forall i :: 0 <= i < |queue| ==> queue[i].file in spool && SortKeyOf(spool[queue[i].file]) == queue[i]
  {
    forall i | 0 <= i < |queue|
      ensures queue[i].file in spool && SortKeyOf(spool[queue[i].file]) == queue[i]
    {
      assert queue[i] in Elements(queue);
      var f :| f in spool && queue[i] == SortKeyOf(spool[f]);
      assert FromHistory(spool, f, h);
    }
  }

  /** A listing is a queue of imported leftovers followed by everything not imported, in emission order. */
  lemma ListingQueue(h: seq<Batch>, imported: nat, spool: map<File, Batch>, deleted: map<File, Batch>)
    returns (d: nat)
    requires Honest(h) && SpoolOk(h, imported, spool, deleted)
    ensures var queue := SortedFiles(Listed(spool));
            d == |queue| - (|h| - imported) && QueueOk(h, imported, spool, Drain(queue, false), d)
  {
    var queue := SortedFiles(Listed(spool));
    ListedFiles(h, spool, queue);
    ListedKeys(h, imported, spool, deleted);
    SortingIsEmissionOrder(h, imported, Listed(spool));
    d := |queue| - (|h| - imported);
    assert h[imported..imported + (|queue| - d)] == h[imported..];
  }

  lemma ListingKeeps(s: System, now: int)
    requires Inv(s)
    ensures Inv(AfterListing(s, now))
  {
    var d := ListingQueue(s.history, s.imported, s.spool, s.deleted);
  }

  /** The head of the queue is the next batch to import, or an imported one. */
  lemma HeadOfQueue(h: seq<Batch>, imported: nat, spool: map<File, Batch>, drain: Drain, d: nat) returns (i: nat)
    requires Honest(h) && QueueOk(h, imported, spool, drain, d) && drain.queue != []
    requires AllFromHistory(spool, h)
    ensures drain.queue[0].file in spool && i < |h| && spool[drain.queue[0].file] == h[i]
    ensures if d == 0 then i == imported else i < imported
  {
    var key := drain.queue[0];
    var b := spool[key.file];
    assert FromHistory(spool, key.file, h);
    var k :| 0 <= k < |h| && h[k] == b;
    if d == 0 {
      i := imported;
      assert drain.queue == drain.queue[0..];
      assert KeysOf(h[imported..imported + |drain.queue|])[0] == SortKeyOf(h[imported]);
    } else {
      assert key in KeysOf(h[..imported]);
      i :| 0 <= i < imported && KeysOf(h[..imported])[i] == key;
    }
    NamesUnique(h, k, i);
  }

  lemma QueueAdvances(h: seq<Batch>, imported: nat, spool: map<File, Batch>, drain: Drain, d: nat)
    requires QueueOk(h, imported, spool, drain, d) && drain.queue != [] && d == 0
    ensures QueueOk(h, imported + 1, spool, drain.(committed := true), 1)
  {
    var queue := drain.queue;
    var m := imported + |queue|;
    assert queue == queue[0..];
    assert h[imported..m][1..] == h[imported + 1..m];
    assert queue[1..] == KeysOf(h[imported + 1..m]);
    assert KeysOf(h[..imported + 1])[imported] == queue[0];
  }

  lemma CommitDb(h: seq<Batch>, started: seq<string>, imported: nat, clock: nat, db: Db)
    requires DbOk(h, imported, clock, db) && imported < |h| && HistoryOk(h, started, clock)
    ensures ImportOutcome(db, h[imported]).Committed? && 0 <= h[imported].to
    ensures DbOk(h, imported + 1, clock, Import(db, h[imported]))
  {
    var b := h[imported];
    assert HonestAt(h, imported);
    if imported > 0 {
      EmittedLater(h, imported - 1, imported);
    }
    NextIsCommitted(db, h, imported);
    ImportCovers(db, b);
  }

  lemma CommitSpool(h: seq<Batch>, imported: nat, spool: map<File, Batch>, deleted: map<File, Batch>)
    requires SpoolOk(h, imported, spool, deleted) && imported < |h|
    ensures SpoolOk(h, imported + 1, spool, deleted)
  {
    forall f | f in deleted ensures FromHistory(deleted, f, h[..imported + 1]) {
      assert FromHistory(deleted, f, h[..imported]);
      var i :| 0 <= i < imported && h[..imported][i] == deleted[f];
      assert h[..imported + 1][i] == deleted[f];
    }
  }

  /**
   Importing the head of a drain never meets a gap, an overlap or a conflict: it is the next batch in emission
   order, or one that is in the database already and changes nothing.
   */
  lemma HeadImports(s: System) returns (i: nat)
    requires Inv(s) && s.collector.Some? && s.collector.value.queue != []
    ensures var file := s.collector.value.queue[0].file;
            file in s.spool && i < |s.history| && s.spool[file] == s.history[i]
    ensures i < s.imported ==> ImportOutcome(s.db, s.history[i]).Duplicate?
    ensures i >= s.imported ==> i == s.imported && ImportOutcome(s.db, s.history[i]).Committed?
                                && QueueOk(s.history, s.imported, s.spool, s.collector.value, 0)
  {
    var drain := s.collector.value;
    var d: nat :| QueueOk(s.history, s.imported, s.spool, drain, d);
    i := HeadOfQueue(s.history, s.imported, s.spool, drain, d);
    if d == 0 {
      CommitDb(s.history, s.started, s.imported, s.clock, s.db);
    } else {
      ImportedIsDuplicate(s.db, s.history, s.imported, i);
    }
  }

  lemma CommitKeeps(s: System)
    requires Inv(s) && s.collector.Some? && s.collector.value.queue != [] && s.imported < |s.history|
    requires QueueOk(s.history, s.imported, s.spool, s.collector.value, 0)
    ensures 0 <= s.history[s.imported].to && Inv(AfterCommit(s, s.history[s.imported]))
  {
    CommitDb(s.history, s.started, s.imported, s.clock, s.db);
    CommitSpool(s.history, s.imported, s.spool, s.deleted);
    QueueAdvances(s.history, s.imported, s.spool, s.collector.value, 0);
  }

  lemma ImportKeeps(s: System, now: int)
    requires Inv(s) && Enabled(s, CollectorImports(now))
    ensures Inv(AfterImport(s, now))
  {
    var i := HeadImports(s);
    var t := AfterImport(s, now);
    if i == s.imported {
      CommitKeeps(s);
      assert t == AfterCommit(s, s.history[i]) || t == s.(collector := None);
    } else {
      HeadCommits(s, i);
      assert t == s.(collector := Some(s.collector.value.(committed := true))) || t == s.(collector := None);
    }
  }

  /** A file that is in already only has to be unlinked. */
  lemma HeadCommits(s: System, i: nat)
    requires Inv(s) && s.collector.Some? && s.collector.value.queue != []
    requires i < s.imported && s.spool[s.collector.value.queue[0].file] == s.history[i]
    ensures DrainOk(s.history, s.imported, s.spool, Some(s.collector.value.(committed := true)))
  {
    var drain := s.collector.value;
    var d: nat :| QueueOk(s.history, s.imported, s.spool, drain, d);
    var j := HeadOfQueue(s.history, s.imported, s.spool, drain, d);
    NamesUnique(s.history, i, j);
    assert QueueOk(s.history, s.imported, s.spool, drain.(committed := true), d);
  }

  lemma CommitStore(h: seq<Batch>, imported: nat, db: Db, books: Books, dir: Direction)
    requires imported < |h| && StoreBalance(h, imported, db, books, dir) && 0 <= h[imported].to
    requires ImportOutcome(db, h[imported]).Committed?
    ensures var dropped := ImportDropping(db, h[imported]);
            var expired := Bytes(books.expired.up + dropped.up, books.expired.down + dropped.down);
            StoreBalance(h, imported + 1, Import(db, h[imported]), books.(expired := expired), dir)
  {
    ImportConserves(db, h[imported], dir);
    assert HistoryTotal(h, imported + 1, dir) == HistoryTotal(h, imported, dir) + BatchTotal(h[imported], dir);
    assert ImportDropping(db, h[imported]).Of(dir) == ImportDropped(db, h[imported], dir);
  }

  lemma CommitBalances(s: System, dir: Direction)
    requires s.collector.Some? && s.imported < |s.history| && Balanced(s, dir)
    requires 0 <= s.history[s.imported].to && ImportOutcome(s.db, s.history[s.imported]).Committed?
    ensures Balanced(AfterCommit(s, s.history[s.imported]), dir)
  {
    var t := AfterCommit(s, s.history[s.imported]);
    assert EngineBalance(t.history, t.engine, t.books, dir);
    assert StoreBalance(t.history, t.imported, t.db, t.books, dir) by {
      CommitStore(s.history, s.imported, s.db, s.books, dir);
    }
  }

  lemma ImportBalances(s: System, now: int, dir: Direction)
    requires Inv(s) && Enabled(s, CollectorImports(now)) && Balanced(s, dir)
    ensures Balanced(AfterImport(s, now), dir)
  {
    var i := HeadImports(s);
    if i == s.imported {
      assert HonestAt(s.history, i);
      CommitBalances(s, dir);
    }
  }

  // ---- unlinking ----

  lemma UnlinkQueue(h: seq<Batch>, imported: nat, spool: map<File, Batch>, drain: Drain, d: nat)
    requires QueueOk(h, imported, spool, drain, d) && drain.queue != [] && drain.committed
    ensures QueueOk(h, imported, spool - {drain.queue[0].file}, Drain(drain.queue[1..], false), d - 1)
  {
    var queue := drain.queue;
    assert queue[1..][d - 1..] == queue[d..];
    forall i | 0 <= i < |queue| - 1 ensures queue[1..][i].file != queue[0].file {
      assert SortKeyOf(spool[queue[0].file]) == queue[0] && SortKeyOf(spool[queue[i + 1].file]) == queue[i + 1];
      assert queue[0] != queue[i + 1];
    }
  }

  lemma UnlinkSpool(h: seq<Batch>, imported: nat, spool: map<File, Batch>, deleted: map<File, Batch>, file: File, i: nat)
    requires SpoolOk(h, imported, spool, deleted) && Honest(h)
    requires file in spool && i < imported && spool[file] == h[i]
    ensures SpoolOk(h, imported, spool - {file}, deleted[file := spool[file]])
  {
    var left, gone := spool - {file}, deleted[file := spool[file]];
    forall f | f in left ensures FromHistory(left, f, h) {
      assert FromHistory(spool, f, h);
    }
    forall f | f in gone ensures FromHistory(gone, f, h[..imported]) {
      assert FromHistory(spool, file, h);
      assert h[..imported][i] == spool[file];
      if f != file {
        assert FromHistory(deleted, f, h[..imported]);
      }
    }
    forall k | imported <= k < |h| ensures Filed(h, left, k) {
      assert Filed(h, spool, k) && FromHistory(spool, file, h);
      if FileOf(h[k]) == file {
        NamesUnique(h, i, k);
      }
    }
  }

  lemma UnlinkKeeps(s: System)
    requires Inv(s) && Enabled(s, CollectorUnlinks)
    ensures Inv(AfterUnlink(s))
  {
    var drain := s.collector.value;
    var d: nat :| QueueOk(s.history, s.imported, s.spool, drain, d);
    var i := HeadOfQueue(s.history, s.imported, s.spool, drain, d);
    UnlinkSpool(s.history, s.imported, s.spool, s.deleted, drain.queue[0].file, i);
    UnlinkQueue(s.history, s.imported, s.spool, drain, d);
  }

  /** A deleted file that comes back holds a batch that is in the database. */
  lemma ReappearSpool(h: seq<Batch>, imported: nat, spool: map<File, Batch>, deleted: map<File, Batch>, file: File)
    requires SpoolOk(h, imported, spool, deleted) && Honest(h) && file in deleted
    ensures SpoolOk(h, imported, spool[file := deleted[file]], deleted)
    ensures file in spool ==> spool[file] == deleted[file]
  {
    assert FromHistory(deleted, file, h[..imported]);
    var i :| 0 <= i < imported && h[..imported][i] == deleted[file];
    var back := spool[file := deleted[file]];
    forall f | f in back ensures FromHistory(back, f, h) {
      if f != file {
        assert FromHistory(spool, f, h);
      } else {
        assert h[i] == back[f];
      }
    }
    forall k | imported <= k < |h| ensures Filed(h, back, k) {
      assert Filed(h, spool, k);
      if FileOf(h[k]) == file {
        NamesUnique(h, i, k);
      }
    }
    if file in spool {
      assert FromHistory(spool, file, h);
      var j :| 0 <= j < |h| && h[j] == spool[file];
      NamesUnique(h, i, j);
    }
  }

  lemma ReappearKeeps(s: System, file: File)
    requires Inv(s) && file in s.deleted
    ensures Inv(s.(spool := s.spool[file := s.deleted[file]]))
  {
    ReappearSpool(s.history, s.imported, s.spool, s.deleted, file);
    if s.collector.Some? {
      var d: nat :| QueueOk(s.history, s.imported, s.spool, s.collector.value, d);
      assert QueueOk(s.history, s.imported, s.spool[file := s.deleted[file]], s.collector.value, d);
    }
  }

  // ---- polling and retention ----

  lemma RetentionDb(h: seq<Batch>, imported: nat, clock: nat, db: Db, ns: nat)
    requires DbOk(h, imported, clock, db) && clock <= ns
    ensures DbOk(h, imported, ns, Prune(db, ns / SECOND))
  {
    LaterDb(h, imported, clock, ns, db);
    PruneCovered(db, ns / SECOND);
  }

  lemma RetentionKeeps(s: System, ns: nat)
    requires Inv(s) && s.clock < ns
    ensures Inv(AfterRetention(s, ns))
  {
    RetentionDb(s.history, s.imported, s.clock, s.db, ns);
    LaterEngine(s.history, s.started, s.clock, ns, s.engine);
  }

  lemma RetentionBalances(s: System, ns: nat, dir: Direction)
    requires Balanced(s, dir)
    ensures Balanced(AfterRetention(s, ns), dir)
  {
    PruneStored(s.db, ns / SECOND, dir);
  }

  /** What recording a sample leaves alone, and where it puts the cursor. */
  lemma RecordCursor(db: Db, sample: Sample)
    requires ValidTimes(db)
    ensures Record(db, sample).epochs == db.epochs
    ensures Record(db, sample).cursor == if Accepted(OutcomeOf(db, sample))
              then Some(Cursor(sample.at, sample.bytes, sample.epoch, sample.source)) else db.cursor
  {
  }

  lemma PollDb(h: seq<Batch>, started: seq<string>, imported: nat, clock: nat, db: Db, ns: nat, sample: Sample)
    requires DbOk(h, imported, clock, db) && clock < ns && sample.at == ns / SECOND
    requires sample.source != KERNEL_SOURCE && (h == [] || imported > 0)
    ensures DbOk(h, imported, ns, Record(db, sample))
  {
    LaterDb(h, imported, clock, ns, db);
    if imported > 0 {
      PollingRefused(db, sample);
    } else {
      RecordCovers(db, sample);
      RecordCursor(db, sample);
    }
  }

  lemma PollKeeps(s: System, ns: nat, sample: Sample)
    requires Inv(s) && Enabled(s, Polls(ns, sample))
    ensures Inv(AfterPoll(s, ns, sample))
  {
    PollDb(s.history, s.started, s.imported, s.clock, s.db, ns, sample);
    LaterEngine(s.history, s.started, s.clock, ns, s.engine);
  }

  lemma PollBalances(s: System, ns: nat, sample: Sample, dir: Direction)
    requires ValidTimes(s.db) && Balanced(s, dir)
    ensures Balanced(AfterPoll(s, ns, sample), dir)
  {
    RecordConserves(s.db, sample, dir);
  }

  // ---- every step ----

  predicate IsEngineStep(step: Step) {
    step.EngineStarts? || step.BytesArrive? || step.EngineFlushes? || step.EngineDies? || step.LastVanishes?
  }

  lemma EngineStepKeeps(s: System, step: Step)
    requires Inv(s) && Enabled(s, step) && IsEngineStep(step)
    ensures Inv(Next(s, step))
  {
    match step
    case EngineStarts(ns, stampNs, epoch, entries, stop) => StartKeeps(s, ns, stampNs, epoch, entries, stop);
    case BytesArrive(ns, host, bytes) => ArrivalKeeps(s, ns, host, bytes);
    case EngineFlushes(stampNs, entries, fault) => TickKeeps(s, stampNs, entries, fault);
    case EngineDies => DeathKeeps(s);
    case LastVanishes => VanishKeeps(s);
  }

  lemma OtherStepKeeps(s: System, step: Step)
    requires Inv(s) && Enabled(s, step) && !IsEngineStep(step)
    ensures Inv(Next(s, step))
  {
    match step
    case Polls(ns, sample) => PollKeeps(s, ns, sample);
    case CollectorLists(now) => ListingKeeps(s, now);
    case CollectorImports(now) => ImportKeeps(s, now);
    case CollectorUnlinks => UnlinkKeeps(s);
    case CollectorFinishes => NoDrainKeeps(s);
    case CollectorDies => NoDrainKeeps(s);
    case FileReappears(file) => ReappearKeeps(s, file);
    case RetentionRuns(ns) => RetentionKeeps(s, ns);
  }

  lemma NoDrainKeeps(s: System)
    requires Inv(s)
    ensures Inv(s.(collector := None))
  {
  }

  lemma StepKeeps(s: System, step: Step)
    requires Inv(s) && Enabled(s, step)
    ensures Inv(Next(s, step))
  {
    if IsEngineStep(step) {
      EngineStepKeeps(s, step);
    } else {
      OtherStepKeeps(s, step);
    }
  }

  lemma SameBooks(s: System, t: System, dir: Direction)
    requires Balanced(s, dir) && t.history == s.history && t.engine == s.engine && t.books == s.books
    requires t.db == s.db && t.imported == s.imported
    ensures Balanced(t, dir)
  {
  }

  lemma EngineStepBalances(s: System, step: Step, dir: Direction)
    requires Inv(s) && Enabled(s, step) && Balanced(s, dir)
    requires IsEngineStep(step)
    ensures Balanced(Next(s, step), dir)
  {
    match step
    case EngineStarts(ns, stampNs, epoch, entries, stop) =>
      StartBalances(s, ns, stampNs, epoch, entries, stop, dir);
    case BytesArrive(ns, host, bytes) => ArrivalBalances(s, ns, host, bytes, dir);
    case EngineFlushes(stampNs, entries, fault) => TickBalances(s, stampNs, entries, fault, dir);
    case EngineDies => DeathBalances(s, dir);
    case LastVanishes => VanishBalances(s, dir);
  }

  /** These steps leave the books, the history and the database alone. */
  lemma QuietStepBalances(s: System, step: Step, dir: Direction)
    requires Enabled(s, step) && Balanced(s, dir) && !IsEngineStep(step)
    requires !step.Polls? && !step.CollectorImports? && !step.RetentionRuns?
    ensures Balanced(Next(s, step), dir)
  {
    match step
    case CollectorLists(now) => SameBooks(s, AfterListing(s, now), dir);
    case CollectorUnlinks => SameBooks(s, AfterUnlink(s), dir);
    case CollectorFinishes => SameBooks(s, s.(collector := None), dir);
    case CollectorDies => SameBooks(s, s.(collector := None), dir);
    case FileReappears(file) => SameBooks(s, s.(spool := s.spool[file := s.deleted[file]]), dir);
  }

  lemma StepBalances(s: System, step: Step, dir: Direction)
    requires Inv(s) && Enabled(s, step) && Balanced(s, dir)
    ensures Balanced(Next(s, step), dir)
  {
    if IsEngineStep(step) {
      EngineStepBalances(s, step, dir);
    } else if step.Polls? {
      PollBalances(s, step.ns, step.sample, dir);
    } else if step.CollectorImports? {
      ImportBalances(s, step.now, dir);
    } else if step.RetentionRuns? {
      RetentionBalances(s, step.ns, dir);
    } else {
      QuietStepBalances(s, step, dir);
    }
  }
}
