/** `drain_engine`: list the spool, import in order, unlink after each commit; and what it does to an honest spool. */
module Drain {
  import opened Ordering
  import opened Wrappers
  import opened Database
  import opened Journal
  import opened History
  import opened Protocol
  import opened Invariance
  import Store

  /** The database and the spool after a drain; an error ends it early. */
  datatype Drained = Drained(db: Db, files: map<File, Batch>, ok: bool)

  /** What a drain of any spool does from a point of its sorted list on. */
  ghost function DrainFrom(db: Db, files: map<File, Batch>, queue: seq<SortKey>, now: int): Drained
    decreases |queue|
  {
    if queue == [] then Drained(db, files, true)
    else
      var file := queue[0].file;
      if file !in files || !FileValid(file, files[file], now) then Drained(db, files, false)
      else
        var outcome := ImportOutcome(db, files[file]);
        if outcome.Committed? || outcome.Duplicate? then
          DrainFrom(Import(db, files[file]), files - {file}, queue[1..], now)
        else Drained(db, files, false)
  }

  ghost function DrainSpool(db: Db, files: map<File, Batch>, now: int): Drained {
    if Listable(files, now) then DrainFrom(db, files, SortedFiles(Listed(files)), now) else Drained(db, files, false)
  }

  class Spool {
    var files: map<File, Batch>

    constructor (files: map<File, Batch>)
      ensures this.files == files
    {
      this.files := files;
    }

    /** Reads and checks every file in no particular order; an error stops the listing. */
    method Scan(now: int) returns (ok: bool, keys: set<SortKey>)
      ensures ok == Listable(files, now)
      ensures ok ==> keys == Listed(files)
    {
      keys := {};
      var seen: set<File> := {};
      var rest := files.Keys;
      while rest != {}
        invariant rest !! seen && rest + seen == files.Keys && |seen| <= 10000
        invariant forall f :: f in seen ==> FileValid(f, files[f], now)
        invariant keys == set f | f in seen :: SortKeyOf(files[f])
        decreases |rest|
      {
        var file :| file in rest;
        var valid := ValidateBatch(files[file], now);
        if !valid || FileOf(files[file]) != file {
          return false, {};
        }
        keys := keys + {SortKeyOf(files[file])};
        rest, seen := rest - {file}, seen + {file};
        if |seen| > 10000 {
          SubsetSmaller(seen, files.Keys);
          return false, {};
        }
      }
      assert seen == files.Keys;
      return true, keys;
    }
  }

  method DrainEngine(store: Store.Store, spool: Spool, now: int) returns (ok: bool)
    modifies store, spool
    ensures Drained(store.Contents(), spool.files, ok) ==
            DrainSpool(old(store.Contents()), old(spool.files), now)
  {
    var listable, keys := spool.Scan(now);
    if !listable {
      return false;
    }
    SortKeysTotal();
    var queue := Sort(keys, SortKeyLeq);
    assert queue == SortedFiles(Listed(spool.files));
    var i := 0;
    while i < |queue|
      invariant i <= |queue|
      invariant DrainFrom(store.Contents(), spool.files, queue[i..], now) ==
                DrainFrom(old(store.Contents()), old(spool.files), queue, now)
    {
      var file := queue[i].file;
      assert queue[i..][1..] == queue[i + 1..];
      if file !in spool.files {
        return false;
      }
      var b := spool.files[file];
      var valid := ValidateBatch(b, now);
      if !valid || FileOf(b) != file {
        return false;
      }
      ghost var db, files := store.Contents(), spool.files;
      var outcome := store.ImportBatch(b);
      if !outcome.Committed? && !outcome.Duplicate? {
        return false;
      }
      HeadAndRest(db, files, queue[i..], now);
      spool.files := spool.files - {file};
      i := i + 1;
    }
    return true;
  }

  // ---- any spool ----

  /** The database knows the batch: its epoch has come at least as far. */
  predicate Acknowledged(db: Db, b: Batch) {
    b.epoch in db.epochs && b.sequence <= db.epochs[b.epoch].sequence
  }

  lemma ImportAcknowledges(db: Db, b: Batch)
    requires 0 <= b.to && (ImportOutcome(db, b).Committed? || ImportOutcome(db, b).Duplicate?)
    ensures Acknowledged(Import(db, b), b)
  {
  }

  lemma AcknowledgedStays(db: Db, b: Batch, c: Batch)
    requires Acknowledged(db, b) && 0 <= c.to
    ensures Acknowledged(Import(db, c), b)
  {
  }

  lemma {:induction false} DrainKeepsAcknowledged(db: Db, files: map<File, Batch>, queue: seq<SortKey>, now: int, b: Batch)
    requires Acknowledged(db, b)
    ensures Acknowledged(DrainFrom(db, files, queue, now).db, b)
    decreases |queue|
  {
    if queue != [] && queue[0].file in files && FileValid(queue[0].file, files[queue[0].file], now) {
      var file := queue[0].file;
      AcknowledgedStays(db, b, files[file]);
      DrainKeepsAcknowledged(Import(db, files[file]), files - {file}, queue[1..], now, b);
    }
  }

  /**
   Whatever the spool and the database hold: a drain changes no file, removes one only when the database knows its
   batch, and after a drain without error every listed file is gone.
   */
  lemma {:induction false} DrainAcknowledges(db: Db, files: map<File, Batch>, queue: seq<SortKey>, now: int)
    ensures var d := DrainFrom(db, files, queue, now);
            && (forall f :: f in d.files ==> f in files && d.files[f] == files[f])
            && (forall f :: f in files && f !in d.files ==> Acknowledged(d.db, files[f]))
            && (d.ok ==> forall i :: 0 <= i < |queue| ==> queue[i].file !in d.files)
    decreases |queue|
  {
    if queue != [] && queue[0].file in files && FileValid(queue[0].file, files[queue[0].file], now) {
      var file := queue[0].file;
      var b := files[file];
      if ImportOutcome(db, b).Committed? || ImportOutcome(db, b).Duplicate? {
        ImportAcknowledges(db, b);
        DrainKeepsAcknowledged(Import(db, b), files - {file}, queue[1..], now, b);
        DrainAcknowledges(Import(db, b), files - {file}, queue[1..], now);
        HeadAndRest(db, files, queue, now);
      }
    }
  }

  lemma HeadAndRest(db: Db, files: map<File, Batch>, queue: seq<SortKey>, now: int)
    requires queue != [] && queue[0].file in files && FileValid(queue[0].file, files[queue[0].file], now)
    requires var b := files[queue[0].file]; ImportOutcome(db, b).Committed? || ImportOutcome(db, b).Duplicate?
    ensures 0 <= files[queue[0].file].to
    ensures DrainFrom(db, files, queue, now) ==
            DrainFrom(Import(db, files[queue[0].file]), files - {queue[0].file}, queue[1..], now)
    ensures forall i :: 0 < i < |queue| ==> queue[i] == queue[1..][i - 1]
  {
  }

  // ---- an honest spool ----

  /** The collector has listed exactly the files of the spool, and all of them are valid. */
  ghost predicate AllListed(s: System, now: int) {
    && s.collector.Some? && !s.collector.value.committed
    && Elements(s.collector.value.queue) == Listed(s.spool)
    && forall f :: f in s.spool ==> FileValid(f, s.spool[f], now)
  }

  /** Importing and unlinking the head is one round of the drain. */
  lemma DrainRound(s: System, now: int) returns (t: System)
    requires Inv(s) && AllListed(s, now) && s.collector.value.queue != []
    ensures var queue := s.collector.value.queue;
            var file := queue[0].file;
            && file in s.spool && FileValid(file, s.spool[file], now)
            && (ImportOutcome(s.db, s.spool[file]).Committed? || ImportOutcome(s.db, s.spool[file]).Duplicate?)
            && Inv(t) && t.history == s.history
            && t.db == Import(s.db, s.spool[file]) && t.spool == s.spool - {file}
            && t.collector == Some(Drain(queue[1..], false))
  {
    var i := HeadImports(s);
    ImportKeeps(s, now);
    var middle := AfterImport(s, now);
    UnlinkKeeps(middle);
    t := AfterUnlink(middle);
  }

  lemma StillListed(s: System, t: System, now: int)
    requires Inv(s) && AllListed(s, now) && s.collector.value.queue != []
    requires t.spool == s.spool - {s.collector.value.queue[0].file}
    requires t.collector == Some(Drain(s.collector.value.queue[1..], false))
    ensures AllListed(t, now)
  {
    var queue := s.collector.value.queue;
    var d: nat :| QueueOk(s.history, s.imported, s.spool, s.collector.value, d);
    EnumeratesRest(queue, Listed(s.spool));
    ListedWithout(s.spool, queue[0].file);
  }

  /** The keys of the other files of a spool whose names are made of their contents. */
  lemma ListedWithout(files: map<File, Batch>, file: File)
    requires file in files && forall f :: f in files ==> FileOf(files[f]) == f
    ensures Listed(files - {file}) == Listed(files) - {SortKeyOf(files[file])}
  {
    var rest := files - {file};
    forall k | k in Listed(rest) ensures k in Listed(files) && k != SortKeyOf(files[file]) {
      var f :| f in rest && SortKeyOf(rest[f]) == k;
      assert k.file == f;
    }
    forall k | k in Listed(files) && k != SortKeyOf(files[file]) ensures k in Listed(rest) {
      var f :| f in files && SortKeyOf(files[f]) == k;
      assert rest[f] == files[f];
    }
  }

  lemma {:induction false} DrainRuns(s: System, now: int) returns (t: System)
    requires Inv(s) && AllListed(s, now)
    ensures Inv(t) && t.history == s.history && t.imported == |t.history| && t.spool == map[]
    ensures DrainFrom(s.db, s.spool, s.collector.value.queue, now) == Drained(t.db, t.spool, true)
    decreases |s.collector.value.queue|
  {
    if s.collector.value.queue == [] {
      t := s;
      NothingListed(s);
    } else {
      var next := DrainRound(s, now);
      StillListed(s, next, now);
      t := DrainRuns(next, now);
    }
  }

  lemma NothingListed(s: System)
    requires Inv(s) && Listed(s.spool) == {}
    ensures s.spool == map[] && s.imported == |s.history|
  {
    assert forall f :: f in s.spool ==> SortKeyOf(s.spool[f]) in Listed(s.spool);
    assert s.spool.Keys == {};
    assert s.imported < |s.history| ==> Filed(s.history, s.spool, s.imported);
  }

  /**
   A drain of an honestly produced spool that can be listed never meets an error: it leaves the spool empty and
   a database that holds every batch ever emitted, whatever files an earlier drain left behind or lost the
   unlinking of.
   */
  lemma HonestDrainSucceeds(s: System, now: int)
    requires Inv(s) && s.collector.None? && Listable(s.spool, now)
    ensures var result := DrainSpool(s.db, s.spool, now);
            && result.ok && result.files == map[]
            && result.db.epochs == Epochs(s.history, |s.history|)
            && forall i :: 0 <= i < |s.history| ==> ImportOutcome(result.db, s.history[i]).Duplicate?
  {
    ListingKeeps(s, now);
    var t := DrainRuns(AfterListing(s, now), now);
    forall i | 0 <= i < |s.history| ensures ImportOutcome(t.db, s.history[i]).Duplicate? {
      ImportedIsDuplicate(t.db, s.history, |s.history|, i);
    }
  }
}
