/**
 What holds in every reachable state of the accounting protocol: bytes are conserved, no batch counts twice,
 nothing is deleted before it is imported, imports never fail, seconds are covered once, losses are flagged.
 */
module Reachable {
  import opened Sums
  import opened Wrappers
  import opened Database
  import opened Attribution
  import opened Signs
  import opened Conservation
  import opened Coverage
  import opened Journal
  import opened History
  import opened Protocol
  import opened Invariance

  ghost predicate Stepped(trace: seq<System>, steps: seq<Step>, i: nat)
    requires i < |steps| && i + 1 < |trace|
  {
    Enabled(trace[i], steps[i]) && trace[i + 1] == Next(trace[i], steps[i])
  }

  /** The states of a run, from the initial one, and the steps between them. */
  ghost predicate Behaviour(trace: seq<System>, steps: seq<Step>) {
    |trace| == |steps| + 1 && IsInitial(trace[0]) && forall i :: 0 <= i < |steps| ==> Stepped(trace, steps, i)
  }

  lemma TransitionKeeps(s: System, step: Step, t: System, dir: Direction)
    requires Inv(s) && Enabled(s, step) && t == Next(s, step)
    ensures Inv(t) && (Balanced(s, dir) ==> Balanced(t, dir))
  {
    StepKeeps(s, step);
    if Balanced(s, dir) {
      StepBalances(s, step, dir);
    }
  }

  lemma StepInTrace(trace: seq<System>, steps: seq<Step>, n: nat, dir: Direction)
    requires Behaviour(trace, steps) && n < |steps| && Inv(trace[n])
    ensures Inv(trace[n + 1]) && (Balanced(trace[n], dir) ==> Balanced(trace[n + 1], dir))
  {
    assert Stepped(trace, steps, n);
    TransitionKeeps(trace[n], steps[n], trace[n + 1], dir);
  }

  lemma {:induction false} ReachableInv(trace: seq<System>, steps: seq<Step>, n: nat)
    requires Behaviour(trace, steps) && n < |trace|
    ensures Inv(trace[n])
  {
    if n == 0 {
      InitialInv(trace[0]);
    } else {
      ReachableInv(trace, steps, n - 1);
      StepInTrace(trace, steps, n - 1, Upload);
    }
  }

  lemma InitialBalance(s: System, dir: Direction)
    requires IsInitial(s)
    ensures Balanced(s, dir)
  {
    assert Traffic(s.db.buckets) == map[];
    assert dir == Upload || dir == Download;
  }

  lemma {:induction false} ReachableBalance(trace: seq<System>, steps: seq<Step>, n: nat, dir: Direction)
    requires Behaviour(trace, steps) && n < |trace|
    ensures Balanced(trace[n], dir)
  {
    if n == 0 {
      InitialBalance(trace[0], dir);
    } else {
      ReachableBalance(trace, steps, n - 1, dir);
      ReachableInv(trace, steps, n - 1);
      StepInTrace(trace, steps, n - 1, dir);
    }
  }

  // ---- conservation ----

  /** The bytes of the batches that are in the spool and not yet in the database. */
  function Pending(h: seq<Batch>, imported: nat, dir: Direction): int
    requires imported <= |h|
    decreases |h| - imported
  {
    if imported == |h| then 0 else BatchTotal(h[imported], dir) + Pending(h, imported + 1, dir)
  }

  lemma {:induction false} PendingIsRest(h: seq<Batch>, imported: nat, dir: Direction)
    requires imported <= |h|
    ensures HistoryTotal(h, imported, dir) + Pending(h, imported, dir) == HistoryTotal(h, |h|, dir)
    decreases |h| - imported
  {
    if imported < |h| {
      PendingIsRest(h, imported + 1, dir);
    }
  }

  lemma {:induction false} PendingNonNegative(h: seq<Batch>, imported: nat, dir: Direction)
    requires Honest(h) && imported <= |h|
    ensures 0 <= Pending(h, imported, dir)
    decreases |h| - imported
  {
    if imported < |h| {
      assert HonestAt(h, imported);
      RowsTotalNonNegative(h[imported], dir, |h[imported].rows|);
      PendingNonNegative(h, imported + 1, dir);
    }
  }

  /**
   In every reachable state the bytes ever counted are stored, dropped by retention, in a spool file that is
   not imported yet, in the engine's memory, or lost with a dead epoch; none of these parts is negative.
   */
  lemma BytesAreConserved(trace: seq<System>, steps: seq<Step>, n: nat, dir: Direction)
    requires Behaviour(trace, steps) && n < |trace|
    ensures var s := trace[n];
            && s.imported <= |s.history|
            && s.books.added.Of(dir) + s.books.polled.Of(dir) ==
               Stored(s.db, dir) + s.books.expired.Of(dir) + Pending(s.history, s.imported, dir)
               + InMemory(s.engine, dir) + Sum(s.books.lost, dir)
            && 0 <= Pending(s.history, s.imported, dir) && 0 <= InMemory(s.engine, dir)
            && 0 <= Sum(s.books.lost, dir)
            && forall k :: s.imported <= k < |s.history| ==> Filed(s.history, s.spool, k)
  {
    var s := trace[n];
    ReachableInv(trace, steps, n);
    ReachableBalance(trace, steps, n, dir);
    PendingIsRest(s.history, s.imported, dir);
    PendingNonNegative(s.history, s.imported, dir);
    SumNonNegative(s.books.lost, dir);
  }

  // ---- exactly once ----

  /** What one step leaves of the imported part of the history. */
  ghost predicate Extends(s: System, t: System) {
    s.imported <= |s.history| && s.imported <= t.imported <= |t.history|
    && t.history[..s.imported] == s.history[..s.imported]
  }

  lemma PublishedExtends(s: System, visible: Option<Batch>)
    requires s.imported <= |s.history|
    ensures Extends(s, Published(s, visible))
  {
  }

  lemma ImportExtends(s: System, now: int)
    requires Inv(s) && Enabled(s, CollectorImports(now))
    ensures Extends(s, AfterImport(s, now))
  {
    var i := HeadImports(s);
    if i == s.imported {
      assert HonestAt(s.history, i);
      assert AfterImport(s, now) == AfterCommit(s, s.history[i]) || AfterImport(s, now) == s.(collector := None);
    }
  }

  lemma StartExtends(s: System, ns: nat, stampNs: nat, epoch: string, entries: nat, stop: Stop)
    requires Inv(s)
    ensures Extends(s, AfterStart(s, ns, stampNs, epoch, entries, stop))
  {
    if stop.AtFlush? {
      var journal := State(epoch, 0, ns / SECOND, s.marker, map[]);
      PublishedExtends(s, FlushResultOf(journal, stampNs, entries, stop.fault).visible);
    }
  }

  lemma EngineStepExtends(s: System, step: Step)
    requires Inv(s) && Enabled(s, step) && IsEngineStep(step)
    ensures Extends(s, Next(s, step))
  {
    if step.EngineStarts? {
      StartExtends(s, step.ns, step.stampNs, step.epoch, step.entries, step.stop);
    } else if step.EngineFlushes? {
      PublishedExtends(s, FlushResultOf(s.engine.value.journal, step.stampNs, step.entries, step.fault).visible);
    }
  }

  /** The history may lose its last entry, but never one that was imported. */
  lemma StepExtends(s: System, step: Step)
    requires Inv(s) && Enabled(s, step)
    ensures Extends(s, Next(s, step))
  {
    if IsEngineStep(step) {
      EngineStepExtends(s, step);
    } else if step.CollectorImports? {
      ImportExtends(s, step.now);
    }
  }

  lemma StepInTraceExtends(trace: seq<System>, steps: seq<Step>, n: nat)
    requires Behaviour(trace, steps) && n < |steps|
    ensures Extends(trace[n], trace[n + 1])
  {
    ReachableInv(trace, steps, n);
    assert Stepped(trace, steps, n);
    StepExtends(trace[n], steps[n]);
  }

  /** The imported part of the history only ever grows. */
  lemma {:induction false} ImportedStays(trace: seq<System>, steps: seq<Step>, n: nat, m: nat)
    requires Behaviour(trace, steps) && n <= m < |trace|
    ensures Extends(trace[n], trace[m])
    decreases m
  {
    if n == m {
      ReachableInv(trace, steps, n);
    } else {
      ImportedStays(trace, steps, n, m - 1);
      StepInTraceExtends(trace, steps, m - 1);
      ExtendsOn(trace[n], trace[m - 1], trace[m]);
    }
  }

  lemma ExtendsOn(s: System, t: System, u: System)
    requires Extends(s, t) && Extends(t, u)
    ensures Extends(s, u)
  {
    assert u.history[..s.imported] == u.history[..t.imported][..s.imported];
  }

  /**
   A batch that was ever imported keeps its place in the history and is a duplicate for good: importing its file
   again at any later time changes no table.
   */
  lemma NothingCountsTwice(trace: seq<System>, steps: seq<Step>, n: nat, m: nat, i: nat)
    requires Behaviour(trace, steps) && n <= m < |trace| && i < trace[n].imported
    ensures trace[n].imported <= |trace[n].history| && i < trace[m].imported <= |trace[m].history|
    ensures trace[m].history[i] == trace[n].history[i] && 0 <= trace[n].history[i].to
    ensures ImportOutcome(trace[m].db, trace[n].history[i]).Duplicate?
    ensures Import(trace[m].db, trace[n].history[i]) == trace[m].db
  {
    var s := trace[m];
    ImportedStays(trace, steps, n, m);
    assert trace[n].history[..trace[n].imported][i] == s.history[..trace[n].imported][i];
    ReachableInv(trace, steps, m);
    assert HonestAt(s.history, i);
    ImportedIsDuplicate(s.db, s.history, s.imported, i);
  }

  /** Nor does a file count that was ever unlinked and comes back, however much later. */
  lemma DeletedCountNothing(trace: seq<System>, steps: seq<Step>, n: nat, m: nat, file: File)
    requires Behaviour(trace, steps) && n <= m < |trace| && file in trace[n].deleted
    ensures 0 <= trace[n].deleted[file].to
    ensures ImportOutcome(trace[m].db, trace[n].deleted[file]).Duplicate?
    ensures Import(trace[m].db, trace[n].deleted[file]) == trace[m].db
  {
    var s := trace[n];
    ReachableInv(trace, steps, n);
    assert FromHistory(s.deleted, file, s.history[..s.imported]);
    var i :| 0 <= i < s.imported && s.history[..s.imported][i] == s.deleted[file];
    NothingCountsTwice(trace, steps, n, m, i);
  }

  /** Unlinking removes a file whose batch is in the database, and every batch without a file is in it. */
  lemma DeletedOnlyOnceImported(trace: seq<System>, steps: seq<Step>, n: nat)
    requires Behaviour(trace, steps) && n < |steps| && steps[n].CollectorUnlinks?
    ensures trace[n].collector.Some? && trace[n].collector.value.queue != []
    ensures var s, file := trace[n], trace[n].collector.value.queue[0].file;
            && file in s.spool && s.imported <= |s.history| && s.spool[file] in s.history[..s.imported]
            && trace[n + 1].spool == s.spool - {file}
            && forall k :: 0 <= k < |s.history| && FileOf(s.history[k]) !in trace[n + 1].spool ==> k < s.imported
  {
    var s := trace[n];
    ReachableInv(trace, steps, n);
    ReachableInv(trace, steps, n + 1);
    assert Stepped(trace, steps, n);
    var drain := s.collector.value;
    var d: nat :| QueueOk(s.history, s.imported, s.spool, drain, d);
    var i := HeadOfQueue(s.history, s.imported, s.spool, drain, d);
    assert s.history[..s.imported][i] == s.history[i];
    forall k | 0 <= k < |s.history| && FileOf(s.history[k]) !in trace[n + 1].spool ensures k < s.imported {
      assert k >= s.imported ==> Filed(s.history, trace[n + 1].spool, k);
    }
  }

  /** No import of a drain is ever refused, whenever engines restarted and whatever files came back. */
  lemma ImportsNeverFail(trace: seq<System>, steps: seq<Step>, n: nat)
    requires Behaviour(trace, steps) && n < |steps| && steps[n].CollectorImports?
    ensures trace[n].collector.Some? && trace[n].collector.value.queue != []
    ensures var s, file := trace[n], trace[n].collector.value.queue[0].file;
            && file in s.spool
            && (ImportOutcome(s.db, s.spool[file]).Committed? || ImportOutcome(s.db, s.spool[file]).Duplicate?)
  {
    ReachableInv(trace, steps, n);
    assert Stepped(trace, steps, n);
    var i := HeadImports(trace[n]);
  }

  /** The size and clock limits a batch must meet to be imported. */
  predicate WithinLimits(b: Batch, now: int) {
    |b.rows| <= 10002 && b.to <= now + 5
  }

  /** The spool of a reachable state can be listed exactly when its size, its batches and the clocks allow it. */
  lemma SpoolListable(trace: seq<System>, steps: seq<Step>, n: nat, now: int)
    requires Behaviour(trace, steps) && n < |trace|
    requires forall f :: f in trace[n].spool ==> HexEpoch(f.epoch) && FitsInt64(trace[n].spool[f])
    ensures var spool := trace[n].spool;
            Listable(spool, now) <==> |spool| <= 10000 && forall f :: f in spool ==> WithinLimits(spool[f], now)
  {
    var s := trace[n];
    ReachableInv(trace, steps, n);
    forall f | f in s.spool ensures FileValid(f, s.spool[f], now) <==> WithinLimits(s.spool[f], now) {
      assert FromHistory(s.spool, f, s.history);
      var i :| 0 <= i < |s.history| && s.history[i] == s.spool[f];
      HonestAccepted(s.history, i, now);
    }
  }

  lemma HonestRowsBounded(h: seq<Batch>, i: nat)
    requires Honest(h) && i < |h|
    ensures |h[i].rows| <= 10000 + BucketsIn(h[i].from, h[i].to)
  {
    assert HonestAt(h, i);
  }

  /** Every batch ever emitted holds at most 10000 rows and one more for every bucket of its interval. */
  lemma ReachableRows(trace: seq<System>, steps: seq<Step>, n: nat)
    requires Behaviour(trace, steps) && n < |trace|
    ensures forall b :: b in trace[n].history ==> |b.rows| <= 10000 + BucketsIn(b.from, b.to)
  {
    var h := trace[n].history;
    ReachableInv(trace, steps, n);
    forall b | b in h ensures |b.rows| <= 10000 + BucketsIn(b.from, b.to) {
      var i :| 0 <= i < |h| && h[i] == b;
      HonestRowsBounded(h, i);
    }
  }

  /** So a spool whose intervals cross at most one bucket boundary can be listed whenever its size and the clock allow. */
  lemma ShortIntervalsListable(trace: seq<System>, steps: seq<Step>, n: nat, now: int)
    requires Behaviour(trace, steps) && n < |trace|
    requires forall f :: f in trace[n].spool ==> HexEpoch(f.epoch) && FitsInt64(trace[n].spool[f])
    requires forall f :: f in trace[n].spool ==> BucketsIn(trace[n].spool[f].from, trace[n].spool[f].to) <= 2
    ensures var spool := trace[n].spool;
            Listable(spool, now) <==> |spool| <= 10000 && forall f :: f in spool ==> spool[f].to <= now + 5
  {
    var s := trace[n];
    ReachableInv(trace, steps, n);
    ReachableRows(trace, steps, n);
    SpoolListable(trace, steps, n, now);
    forall f | f in s.spool ensures WithinLimits(s.spool[f], now) <==> s.spool[f].to <= now + 5 {
      assert FromHistory(s.spool, f, s.history);
    }
  }

  // ---- losses ----

  /**
   Loss is never silent: whichever epochs lost bytes, an epoch that was started after another one carries the
   unclean flag in its first batch, and its row in the database says so from then on.
   */
  lemma LossIsNeverSilent(trace: seq<System>, steps: seq<Step>, n: nat, j: nat)
    requires Behaviour(trace, steps) && n < |trace| && 0 < j < |trace[n].started|
    ensures var s, epoch := trace[n], trace[n].started[j];
            && (forall k :: 0 <= k < |s.history| && s.history[k].epoch == epoch && s.history[k].sequence == 1 ==>
                  s.history[k].unclean)
            && (epoch in s.db.epochs ==> s.db.epochs[epoch].tailLoss)
  {
    var s, epoch := trace[n], trace[n].started[j];
    ReachableInv(trace, steps, n);
    if epoch in s.db.epochs {
      var i := KnownEpoch(s.history, s.imported, epoch);
      var k := FirstOfItsEpoch(s.history, i);
      TailLossStays(s.history, s.imported, k);
    }
  }

  lemma {:induction false} NoAlarm(h: seq<Batch>, n: nat, epoch: string)
    requires n <= |h| && forall i :: 0 <= i < n && h[i].epoch == epoch ==> !h[i].unclean
    ensures epoch in Epochs(h, n) ==> !Epochs(h, n)[epoch].tailLoss
  {
    if n > 0 {
      NoAlarm(h, n - 1, epoch);
    }
  }

  /** Nor is a loss ever claimed without reason: the first epoch of a spool never carries the flag. */
  lemma NoFalseAlarm(trace: seq<System>, steps: seq<Step>, n: nat)
    requires Behaviour(trace, steps) && n < |trace| && trace[n].started != []
    ensures var s, epoch := trace[n], trace[n].started[0];
            && (forall k :: 0 <= k < |s.history| && s.history[k].epoch == epoch ==> !s.history[k].unclean)
            && (epoch in s.db.epochs ==> !s.db.epochs[epoch].tailLoss)
  {
    var s := trace[n];
    ReachableInv(trace, steps, n);
    NoAlarm(s.history, s.imported, s.started[0]);
  }

  lemma {:induction false} KnownEpoch(h: seq<Batch>, n: nat, epoch: string) returns (i: nat)
    requires n <= |h| && epoch in Epochs(h, n)
    ensures i < n && h[i].epoch == epoch
  {
    if h[n - 1].epoch == epoch {
      i := n - 1;
    } else {
      i := KnownEpoch(h, n - 1, epoch);
    }
  }

  /** An epoch lost bytes only if it was started, so every later one is covered by the statement above. */
  lemma LossHasAnEpoch(trace: seq<System>, steps: seq<Step>, n: nat, epoch: string)
    requires Behaviour(trace, steps) && n < |trace| && epoch in trace[n].books.lost
    ensures epoch in trace[n].started
  {
    ReachableInv(trace, steps, n);
  }

  /** The epoch table only grows. */
  lemma {:induction false} EpochsStay(trace: seq<System>, steps: seq<Step>, n: nat, m: nat, epoch: string)
    requires Behaviour(trace, steps) && n <= m < |trace| && epoch in trace[n].db.epochs
    ensures epoch in trace[m].db.epochs
    decreases m
  {
    if n < m {
      EpochsStay(trace, steps, n, m - 1, epoch);
      assert Stepped(trace, steps, m - 1);
      StepKeepsEpochs(trace[m - 1], steps[m - 1], epoch);
    }
  }

  lemma StepKeepsEpochs(s: System, step: Step, epoch: string)
    requires Enabled(s, step) && epoch in s.db.epochs
    ensures epoch in Next(s, step).db.epochs
  {
    if step.Polls? {
      RecordCursor(s.db, step.sample);
    }
  }

  // ---- coverage ----

  lemma PruneShrinks(db: Db, now: nat)
    ensures |Prune(db, now).buckets| <= |db.buckets|
  {
    var kept := Prune(db, now).buckets;
    SubsetSmaller(kept.Keys, db.buckets.Keys);
    assert |kept| == |kept.Keys| && |db.buckets| == |db.buckets.Keys|;
  }

  ghost predicate BoundedTable(db: Db) { |db.buckets| <= 92 * 96 + 1 }

  lemma HeadBounded(s: System, now: int)
    requires Inv(s) && Enabled(s, CollectorImports(now)) && BoundedTable(s.db)
    ensures BoundedTable(AfterImport(s, now).db)
  {
    var i := HeadImports(s);
    assert HonestAt(s.history, i);
    assert AfterImport(s, now).db == s.db || AfterImport(s, now).db == Import(s.db, s.history[i]);
    if i == s.imported {
      CommitBounded(s.db, s.history[i], s.history, s.imported, s.clock, s.started);
    }
  }

  lemma CommitBounded(db: Db, b: Batch, h: seq<Batch>, imported: nat, clock: nat, started: seq<string>)
    requires DbOk(h, imported, clock, db) && HistoryOk(h, started, clock) && imported < |h| && b == h[imported]
    requires ImportOutcome(db, b).Committed?
    ensures 0 <= b.to && BoundedTable(Import(db, b))
  {
    assert HonestAt(h, imported);
    if imported > 0 {
      EmittedLater(h, imported - 1, imported);
    }
    BatchCovers(db, b);
    TableBounded(ApplyBatch(db, b), b.to);
  }

  lemma PollBounded(db: Db, sample: Sample)
    requires Covered(db) && BoundedTable(db)
    ensures BoundedTable(Record(db, sample))
  {
    if Accepted(OutcomeOf(db, sample)) {
      AppliedCovers(db, sample);
      TableBounded(Apply(db, sample), sample.at);
    }
  }

  lemma StepBounded(s: System, step: Step)
    requires Inv(s) && Enabled(s, step) && BoundedTable(s.db)
    ensures BoundedTable(Next(s, step).db)
  {
    if step.Polls? {
      PollStepBounded(s, step.ns, step.sample);
    } else if step.CollectorImports? {
      HeadBounded(s, step.now);
    } else if step.RetentionRuns? {
      PruneShrinks(s.db, step.ns / SECOND);
      assert Next(s, step).db == Prune(s.db, step.ns / SECOND);
    } else {
      OtherStepsKeepDb(s, step);
    }
  }

  lemma PollStepBounded(s: System, ns: nat, sample: Sample)
    requires Inv(s) && Enabled(s, Polls(ns, sample)) && BoundedTable(s.db)
    ensures BoundedTable(Next(s, Polls(ns, sample)).db)
  {
    PollBounded(s.db, sample);
    assert Next(s, Polls(ns, sample)).db == Record(s.db, sample);
  }

  /** At most 92*96+1 bucket rows in every state, because every transaction that adds some ends in a retention pass. */
  lemma {:induction false} ReachableTable(trace: seq<System>, steps: seq<Step>, n: nat)
    requires Behaviour(trace, steps) && n < |trace|
    ensures |trace[n].db.buckets| <= 92 * 96 + 1
  {
    if n > 0 {
      ReachableTable(trace, steps, n - 1);
      TableInTrace(trace, steps, n - 1);
    }
  }

  lemma TableInTrace(trace: seq<System>, steps: seq<Step>, n: nat)
    requires Behaviour(trace, steps) && n < |steps| && BoundedTable(trace[n].db)
    ensures BoundedTable(trace[n + 1].db)
  {
    ReachableInv(trace, steps, n);
    assert Stepped(trace, steps, n);
    StepBounded(trace[n], steps[n]);
  }

  /** No second is covered twice, and polling is over for good once a batch is in. */
  lemma ReachableCoverage(trace: seq<System>, steps: seq<Step>, n: nat)
    requires Behaviour(trace, steps) && n < |trace|
    ensures Covered(trace[n].db)
    ensures forall start :: start in trace[n].db.buckets ==>
              var row := trace[n].db.buckets[start]; 0 <= row.observed + row.estimated <= 900
    ensures n < |steps| && steps[n].Polls? && trace[n].imported > 0 ==> trace[n + 1].db == trace[n].db
  {
    var s := trace[n];
    ReachableInv(trace, steps, n);
    forall start | start in s.db.buckets ensures
      var row := s.db.buckets[start]; 0 <= row.observed + row.estimated <= 900
    {
      assert RowCovered(s.db.buckets[start], start, s.db.cursor.value.at);
    }
    if n < |steps| && steps[n].Polls? && s.imported > 0 {
      assert Stepped(trace, steps, n);
      PollingRefused(s.db, steps[n].sample);
    }
  }

  // ---- agreement of the two tables ----

  /** Every poll of a run carried a connection snapshot. */
  ghost predicate Sampled(steps: seq<Step>) {
    forall i :: 0 <= i < |steps| && steps[i].Polls? ==>
      SampleValid(steps[i].sample) && steps[i].sample.connections.Some?
  }

  lemma HeadAgrees(s: System, now: int)
    requires Inv(s) && Enabled(s, CollectorImports(now)) && Agrees(s.db)
    ensures Agrees(AfterImport(s, now).db)
  {
    var i := HeadImports(s);
    assert HonestAt(s.history, i);
    ImportAgrees(s.db, s.history[i]);
    assert AfterImport(s, now).db == s.db || AfterImport(s, now).db == Import(s.db, s.history[i]);
  }

  /** Only these steps touch the database. */
  lemma OtherStepsKeepDb(s: System, step: Step)
    requires Enabled(s, step) && !step.Polls? && !step.CollectorImports? && !step.RetentionRuns?
    ensures Next(s, step).db == s.db
  {
  }

  lemma StepAgrees(s: System, step: Step)
    requires Inv(s) && Enabled(s, step) && Agrees(s.db)
    requires step.Polls? ==> SampleValid(step.sample) && step.sample.connections.Some?
    ensures Agrees(Next(s, step).db)
  {
    if step.Polls? {
      RecordAgrees(s.db, step.sample);
      assert Next(s, step).db == Record(s.db, step.sample);
    } else if step.CollectorImports? {
      HeadAgrees(s, step.now);
    } else if step.RetentionRuns? {
      PruneAgrees(s.db, step.ns / SECOND);
      assert Next(s, step).db == Prune(s.db, step.ns / SECOND);
    } else {
      OtherStepsKeepDb(s, step);
    }
  }

  /** The totals and the per-domain table agree bucket by bucket, before, across and after the migration. */
  lemma {:induction false} ReachableAgreement(trace: seq<System>, steps: seq<Step>, n: nat)
    requires Behaviour(trace, steps) && n < |trace| && Sampled(steps)
    ensures Agrees(trace[n].db)
  {
    if n == 0 {
      EmptyAgrees();
    } else {
      ReachableAgreement(trace, steps, n - 1);
      AgreementInTrace(trace, steps, n - 1);
    }
  }

  lemma AgreementInTrace(trace: seq<System>, steps: seq<Step>, n: nat)
    requires Behaviour(trace, steps) && n < |steps| && Sampled(steps) && Agrees(trace[n].db)
    ensures Agrees(trace[n + 1].db)
  {
    ReachableInv(trace, steps, n);
    assert Stepped(trace, steps, n);
    StepAgrees(trace[n], steps[n]);
  }

  // ---- no negative numbers ----

  /** Every snapshot of a run has distinct keys, real domains and counters in range. */
  ghost predicate Parsed(steps: seq<Step>) {
    forall i :: 0 <= i < |steps| && steps[i].Polls? ==> SampleValid(steps[i].sample)
  }

  lemma HeadSigned(s: System, now: int)
    requires Inv(s) && Enabled(s, CollectorImports(now)) && Signed(s.db)
    ensures Signed(AfterImport(s, now).db)
  {
    var i := HeadImports(s);
    assert HonestAt(s.history, i);
    ImportSigned(s.db, s.history[i]);
    assert AfterImport(s, now).db == s.db || AfterImport(s, now).db == Import(s.db, s.history[i]);
  }

  lemma StepSigned(s: System, step: Step)
    requires Inv(s) && Enabled(s, step) && Signed(s.db)
    requires step.Polls? ==> SampleValid(step.sample)
    ensures Signed(Next(s, step).db)
  {
    if step.Polls? {
      RecordSigned(s.db, step.sample);
      assert Next(s, step).db == Record(s.db, step.sample);
    } else if step.CollectorImports? {
      HeadSigned(s, step.now);
    } else if step.RetentionRuns? {
      PruneSigned(s.db, step.ns / SECOND);
      assert Next(s, step).db == Prune(s.db, step.ns / SECOND);
    } else {
      OtherStepsKeepDb(s, step);
    }
  }

  /** No row of either table ever holds a negative number, through resets, caps, rounding and migration. */
  lemma {:induction false} ReachableSigned(trace: seq<System>, steps: seq<Step>, n: nat)
    requires Behaviour(trace, steps) && n < |trace| && Parsed(steps)
    ensures Signed(trace[n].db)
  {
    if n > 0 {
      ReachableSigned(trace, steps, n - 1);
      SignedInTrace(trace, steps, n - 1);
    }
  }

  lemma SignedInTrace(trace: seq<System>, steps: seq<Step>, n: nat)
    requires Behaviour(trace, steps) && n < |steps| && Parsed(steps) && Signed(trace[n].db)
    ensures Signed(trace[n + 1].db)
  {
    ReachableInv(trace, steps, n);
    assert Stepped(trace, steps, n);
    StepSigned(trace[n], steps[n]);
  }
}
