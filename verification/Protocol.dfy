/**
 The durable accounting protocol as a step machine: engines that add, flush, fail, die and restart; a spool
 whose files are renamed in, listed, unlinked and may reappear or vanish; a collector that lists, imports
 and unlinks, and may die between any two steps.
 */
module Protocol {
  import opened Sums
  import opened Ordering
  import opened Wrappers
  import opened Database
  import opened Conservation
  import opened Coverage
  import opened Journal
  import opened History

  /** A live engine; `durable` is what a failed flush has already made visible of the rows still in memory. */
  datatype Engine = Engine(journal: State, failed: bool, durable: Bytes)

  /** A drain in progress: the files still listed, and whether the first of them has been committed. */
  datatype Drain = Drain(queue: seq<SortKey>, committed: bool)

  /** Bytes the engine accepted, polling counted, retention dropped, and each dead epoch took with it. */
  datatype Books = Books(added: Bytes, polled: Bytes, expired: Bytes, lost: map<string, Bytes>)

  /**
   `history` lists the batches that reached the spool, in emission order, and `imported` counts those that
   were committed; `deleted` holds every file ever unlinked, since any of them may reappear.
   */
  datatype System = System(
    clock: nat, started: seq<string>, marker: bool, engine: Option<Engine>,
    history: seq<Batch>, unsynced: bool, spool: map<File, Batch>, deleted: map<File, Batch>,
    collector: Option<Drain>, db: Db, imported: nat, books: Books)

  ghost predicate IsInitial(s: System) {
    && s.started == [] && !s.marker && s.engine.None? && s.history == [] && !s.unsynced
    && s.spool == map[] && s.deleted == map[] && s.collector.None? && s.db == EMPTY && s.imported == 0
    && s.books == Books(Bytes(0, 0), Bytes(0, 0), Bytes(0, 0), map[])
  }

  // ---- the steps ----

  /** Where `StartDomainAccounting` stops: before or after it left the crash marker, or in its first flush. */
  datatype Stop = BeforeMarker | AtMarker | AtFlush(fault: Fault)

  datatype Step =
    | Polls(ns: nat, sample: Sample)
    | EngineStarts(ns: nat, stampNs: nat, epoch: string, entries: nat, stop: Stop)
    | BytesArrive(ns: nat, host: string, bytes: Bytes)
    | EngineFlushes(stampNs: nat, entries: nat, fault: Fault)
    | EngineDies
    | LastVanishes
    | CollectorLists(now: int)
    | CollectorImports(now: int)
    | CollectorUnlinks
    | CollectorFinishes
    | CollectorDies
    | FileReappears(file: File)
    | RetentionRuns(ns: nat)

  /**
   The clock increases, epochs are distinct, one engine runs at a time, one collector or poller runs at a
   time, and polling ends before the first engine starts (after the first import it is refused anyway).
   */
  predicate Permitted(s: System, step: Step) {
    match step
    case Polls(ns, sample) =>
      && s.clock < ns && s.collector.None? && (s.started == [] || s.imported > 0)
      && sample.at == ns / SECOND && sample.source != KERNEL_SOURCE
    case EngineStarts(ns, stampNs, epoch, _, _) =>
      s.clock < ns < stampNs && s.engine.None? && epoch !in s.started
    case BytesArrive(ns, _, bytes) => s.clock < ns && s.engine.Some? && bytes.NonNegative()
    case EngineFlushes(stampNs, _, _) => s.clock < stampNs && s.engine.Some? && !s.engine.value.failed
    case EngineDies => s.engine.Some?
    case LastVanishes => s.engine.None? && s.unsynced && s.imported < |s.history|
    case CollectorLists(_) => s.collector.None?
    case CollectorImports(_) => s.collector.Some? && !s.collector.value.committed && s.collector.value.queue != []
    case CollectorUnlinks => s.collector.Some? && s.collector.value.committed && s.collector.value.queue != []
    case CollectorFinishes => s.collector.Some? && s.collector.value.queue == []
    case CollectorDies => s.collector.Some?
    case FileReappears(file) => file in s.deleted
    case RetentionRuns(ns) => s.clock < ns
  }

  ghost predicate Enabled(s: System, step: Step) {
    ValidTimes(s.db) && Permitted(s, step)
  }

  ghost function Memory(rows: map<Key, Bytes>): Bytes {
    Bytes(Sum(rows, Upload), Sum(rows, Download))
  }

  /** The bytes that die with an engine. */
  ghost function Unsaved(e: Engine): Bytes {
    Bytes(Sum(e.journal.rows, Upload) - e.durable.up, Sum(e.journal.rows, Download) - e.durable.down)
  }

  function Published(s: System, visible: Option<Batch>): System {
    if visible.None? then s
    else s.(history := s.history + [visible.value], spool := s.spool[FileOf(visible.value) := visible.value])
  }

  ghost function AfterPoll(s: System, ns: nat, sample: Sample): System
    requires ValidTimes(s.db)
  {
    var counted := Counted(s.db, sample);
    s.(clock := ns, db := Record(s.db, sample),
       books := s.books.(polled := Bytes(s.books.polled.up + counted.up, s.books.polled.down + counted.down),
                         expired := Bytes(s.books.expired.up + Dropped(s.db, sample, Upload),
                                          s.books.expired.down + Dropped(s.db, sample, Download))))
  }

  ghost function FirstFlush(s: System, ns: nat, stampNs: nat, epoch: string, entries: nat, fault: Fault): System {
    var journal := State(epoch, 0, ns / SECOND, s.marker, map[]);
    var result := FlushResultOf(journal, stampNs, entries, fault);
    var after := AfterFlush(journal, stampNs, entries, fault);
    Published(s, result.visible)
      .(clock := stampNs, started := s.started + [epoch], marker := true,
        unsynced := result.visible.Some? && result.error.Some?,
        engine := if result.error.None? then Some(Engine(after, false, Bytes(0, 0))) else None)
  }

  ghost function AfterStart(s: System, ns: nat, stampNs: nat, epoch: string, entries: nat, stop: Stop): System {
    match stop
    case BeforeMarker => s.(clock := stampNs)
    case AtMarker => s.(clock := stampNs, started := s.started + [epoch], marker := true)
    case AtFlush(fault) => FirstFlush(s, ns, stampNs, epoch, entries, fault)
  }

  ghost function AfterArrival(s: System, ns: nat, host: string, bytes: Bytes): System
    requires s.engine.Some?
  {
    var e := s.engine.value;
    s.(clock := ns, engine := Some(e.(journal := Added(e.journal, host, bytes, ns / SECOND))),
       books := s.books.(added := Bytes(s.books.added.up + bytes.up, s.books.added.down + bytes.down)))
  }

  ghost function AfterTick(s: System, stampNs: nat, entries: nat, fault: Fault): System
    requires s.engine.Some?
  {
    var e := s.engine.value;
    var result := FlushResultOf(e.journal, stampNs, entries, fault);
    var partly := result.visible.Some? && result.error.Some?;
    Published(s, result.visible)
      .(clock := stampNs, unsynced := partly,
        engine := Some(Engine(AfterFlush(e.journal, stampNs, entries, fault), result.error.Some?,
                              if partly then Memory(e.journal.rows) else e.durable)))
  }

  ghost function AfterDeath(s: System): System
    requires s.engine.Some?
  {
    var e := s.engine.value;
    s.(engine := None, books := s.books.(lost := Upsert(s.books.lost, e.journal.epoch, Unsaved(e))))
  }

  /** A power loss takes a renamed file whose directory entry was never synced. */
  function AfterVanishing(s: System): System
    requires s.history != []
  {
    var n := |s.history| - 1;
    var last := s.history[n];
    var bytes := Bytes(BatchTotal(last, Upload), BatchTotal(last, Download));
    s.(history := s.history[..n], unsynced := false, spool := s.spool - {FileOf(last)}, collector := None,
       books := s.books.(lost := Upsert(s.books.lost, last.epoch, bytes)))
  }

  ghost function Listed(spool: map<File, Batch>): set<SortKey> {
    set f | f in spool :: SortKeyOf(spool[f])
  }

  /** What `validate_batch` checks of a file: the name must repeat the batch's epoch and sequence number. */
  ghost predicate FileValid(file: File, b: Batch, now: int) {
    FileOf(b) == file && BatchValid(b, now)
  }

  /** Listing raises when the spool is over capacity or holds an invalid batch. */
  ghost predicate Listable(spool: map<File, Batch>, now: int) {
    |spool| <= 10000 && forall f :: f in spool ==> FileValid(f, spool[f], now)
  }

  ghost function AfterListing(s: System, now: int): System {
    if Listable(s.spool, now) then s.(collector := Some(Drain(SortedFiles(Listed(s.spool)), false))) else s
  }

  ghost function AfterCommit(s: System, b: Batch): System
    requires s.collector.Some? && 0 <= b.to
  {
    var dropped := ImportDropping(s.db, b);
    s.(collector := Some(s.collector.value.(committed := true)), db := Import(s.db, b), imported := s.imported + 1,
       books := s.books.(expired := Bytes(s.books.expired.up + dropped.up, s.books.expired.down + dropped.down)))
  }

  /** The file is read and checked again; an error ends the drain and leaves the database as it was. */
  ghost function AfterImport(s: System, now: int): System
    requires s.collector.Some? && s.collector.value.queue != []
  {
    var drain := s.collector.value;
    var file := drain.queue[0].file;
    if file !in s.spool || !FileValid(file, s.spool[file], now) then s.(collector := None)
    else
      var b := s.spool[file];
      match ImportOutcome(s.db, b)
      case Duplicate => s.(collector := Some(drain.(committed := true)))
      case Committed => AfterCommit(s, b)
      case _ => s.(collector := None)
  }

  function AfterUnlink(s: System): System
    requires s.collector.Some? && s.collector.value.queue != []
  {
    var queue := s.collector.value.queue;
    var file := queue[0].file;
    if file !in s.spool then s.(collector := None)
    else
      s.(spool := s.spool - {file}, deleted := s.deleted[file := s.spool[file]],
         collector := Some(Drain(queue[1..], false)))
  }

  ghost function AfterRetention(s: System, ns: nat): System {
    var now := ns / SECOND;
    s.(clock := ns, db := Prune(s.db, now),
       books := s.books.(expired := Bytes(s.books.expired.up + Expired(s.db, now, Upload),
                                          s.books.expired.down + Expired(s.db, now, Download))))
  }

  ghost function Next(s: System, step: Step): System
    requires Enabled(s, step)
  {
    match step
    case Polls(ns, sample) => AfterPoll(s, ns, sample)
    case EngineStarts(ns, stampNs, epoch, entries, stop) => AfterStart(s, ns, stampNs, epoch, entries, stop)
    case BytesArrive(ns, host, bytes) => AfterArrival(s, ns, host, bytes)
    case EngineFlushes(stampNs, entries, fault) => AfterTick(s, stampNs, entries, fault)
    case EngineDies => AfterDeath(s)
    case LastVanishes => AfterVanishing(s)
    case CollectorLists(now) => AfterListing(s, now)
    case CollectorImports(now) => AfterImport(s, now)
    case CollectorUnlinks => AfterUnlink(s)
    case CollectorFinishes => s.(collector := None)
    case CollectorDies => s.(collector := None)
    case FileReappears(file) => s.(spool := s.spool[file := s.deleted[file]])
    case RetentionRuns(ns) => AfterRetention(s, ns)
  }

  // ---- the invariant ----

  /** History is honest, and nothing in it is later than the clock. */
  ghost predicate HistoryOk(h: seq<Batch>, started: seq<string>, clock: nat) {
    && Honest(h) && forall i :: 0 <= i < |h| ==> h[i].emittedNs <= clock && h[i].epoch in started
  }

  /** A working engine goes on where history ends. */
  ghost predicate EngineOk(h: seq<Batch>, started: seq<string>, clock: nat, engine: Option<Engine>) {
    match engine
    case None => true
    case Some(e) =>
      && Sound(e.journal, clock / SECOND) && Unsaved(e).NonNegative()
      && started != [] && started[|started| - 1] == e.journal.epoch
      && (!e.failed ==>
            var last := |h| - 1;
            && h != [] && h[last].epoch == e.journal.epoch && h[last].sequence == e.journal.sequence
            && h[last].to == e.journal.from && e.durable == Bytes(0, 0) && !e.journal.unclean)
  }

  /** A file holds a batch of a history under that batch's name. */
  ghost predicate FromHistory(files: map<File, Batch>, f: File, h: seq<Batch>)
    requires f in files
  {
    files[f] in h && FileOf(files[f]) == f
  }

  ghost predicate Filed(h: seq<Batch>, files: map<File, Batch>, k: nat)
    requires k < |h|
  {
    FileOf(h[k]) in files && files[FileOf(h[k])] == h[k]
  }

  ghost predicate AllFromHistory(files: map<File, Batch>, h: seq<Batch>) {
    forall f :: f in files ==> FromHistory(files, f, h)
  }

  /** Files are honest batches, deleted files were imported, and what is not imported is there. */
  ghost predicate SpoolOk(h: seq<Batch>, imported: nat, spool: map<File, Batch>, deleted: map<File, Batch>) {
    && imported <= |h|
    && AllFromHistory(spool, h) && AllFromHistory(deleted, h[..imported])
    && (forall k :: imported <= k < |h| ==> Filed(h, spool, k))
  }

  /** What is left of a listing: d files that are imported already, then the next ones in emission order. */
  ghost predicate QueueOk(h: seq<Batch>, imported: nat, spool: map<File, Batch>, drain: Drain, d: nat) {
    var queue := drain.queue;
    && d <= |queue| && imported + (|queue| - d) <= |h| && (drain.committed ==> d > 0)
    && queue[d..] == KeysOf(h[imported..imported + (|queue| - d)])
    && (forall i :: 0 <= i < d ==> queue[i] in KeysOf(h[..imported]))
    && Distinct(queue)
    && (forall i :: 0 <= i < |queue| ==> queue[i].file in spool && SortKeyOf(spool[queue[i].file]) == queue[i])
  }

  ghost predicate DrainOk(h: seq<Batch>, imported: nat, spool: map<File, Batch>, collector: Option<Drain>) {
    match collector
    case None => true
    case Some(drain) => exists d: nat :: QueueOk(h, imported, spool, drain, d)
  }

  /** The cursor stands at the end of the last imported batch, and never past the start of the next one. */
  ghost predicate DbOk(h: seq<Batch>, imported: nat, clock: nat, db: Db) {
    && imported <= |h| && db.epochs == Epochs(h, imported) && Covered(db)
    && (imported > 0 ==> db.cursor.Some? && db.cursor.value.at == h[imported - 1].to
                         && db.cursor.value.source == KERNEL_SOURCE)
    && (imported == 0 && db.cursor.Some? ==>
          db.cursor.value.at <= clock / SECOND && (h != [] ==> db.cursor.value.at <= h[0].from))
  }

  /** The bytes of the first n batches. */
  function HistoryTotal(h: seq<Batch>, n: nat, dir: Direction): int
    requires n <= |h|
  {
    if n == 0 then 0 else HistoryTotal(h, n - 1, dir) + BatchTotal(h[n - 1], dir)
  }

  ghost function InMemory(engine: Option<Engine>, dir: Direction): int {
    if engine.None? then 0 else Unsaved(engine.value).Of(dir)
  }

  /** Every byte the engine accepted is in a batch, in memory, or lost with an epoch. */
  ghost predicate EngineBalance(h: seq<Batch>, engine: Option<Engine>, books: Books, dir: Direction) {
    books.added.Of(dir) == HistoryTotal(h, |h|, dir) + InMemory(engine, dir) + Sum(books.lost, dir)
  }

  /** Every byte polled or imported is stored or dropped by retention. */
  ghost predicate StoreBalance(h: seq<Batch>, imported: nat, db: Db, books: Books, dir: Direction)
    requires imported <= |h|
  {
    Stored(db, dir) + books.expired.Of(dir) == books.polled.Of(dir) + HistoryTotal(h, imported, dir)
  }

  /** The first epoch is never started again. */
  ghost predicate FirstOnce(started: seq<string>) {
    forall j :: 0 < j < |started| ==> started[j] != started[0]
  }

  /** Losses belong to started epochs, and exactly the first batch of every epoch after the first says so. */
  ghost predicate LossOk(h: seq<Batch>, started: seq<string>, marker: bool, books: Books) {
    && (marker <==> started != []) && FirstOnce(started)
    && (forall e :: e in books.lost ==> e in started && books.lost[e].NonNegative())
    && (forall i :: 0 <= i < |h| ==> (h[i].unclean <==> h[i].sequence == 1 && started != [] && h[i].epoch != started[0]))
  }

  ghost predicate Inv(s: System) {
    && HistoryOk(s.history, s.started, s.clock)
    && EngineOk(s.history, s.started, s.clock, s.engine)
    && SpoolOk(s.history, s.imported, s.spool, s.deleted)
    && DrainOk(s.history, s.imported, s.spool, s.collector)
    && DbOk(s.history, s.imported, s.clock, s.db)
    && LossOk(s.history, s.started, s.marker, s.books)
  }

  ghost predicate Balanced(s: System, dir: Direction) {
    && s.imported <= |s.history|
    && EngineBalance(s.history, s.engine, s.books, dir)
    && StoreBalance(s.history, s.imported, s.db, s.books, dir)
  }
}
