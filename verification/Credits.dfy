/**
 The other half of billing: what a connection moved is credited to it, to its domain, and in full, as long as it is
 listed under one domain in every snapshot and its checkpoint is kept.
 */
module Credits {
  import opened Sums
  import opened Wrappers
  import opened Calendar
  import opened Database
  import opened Attribution
  import opened Billing

  // ---- what one listing credits ----

  /** A listing under the domain of the checkpoint is credited its growth. */
  lemma GrowthIsCredited(prior: map<string, Checkpoint>, c: Connection, oldAt: int, at: int)
    requires c.key in prior && c.domain == prior[c.key].domain
    requires prior[c.key].bytes.up <= c.bytes.up && prior[c.key].bytes.down <= c.bytes.down
    ensures Credit(prior, c, oldAt, at) == Growth(prior[c.key].bytes, c.bytes)
  {
  }

  /** A listing under another domain, or with a decreased counter, is credited nothing. */
  lemma ChangeIsNotCredited(prior: map<string, Checkpoint>, c: Connection, oldAt: int, at: int)
    requires c.key in prior
    requires c.domain != prior[c.key].domain || c.bytes.up < prior[c.key].bytes.up || c.bytes.down < prior[c.key].bytes.down
    ensures Credit(prior, c, oldAt, at) == Bytes(0, 0)
  {
  }

  /** A first listing is credited in full when the connection began in the interval, and not at all otherwise. */
  lemma FirstListing(prior: map<string, Checkpoint>, c: Connection, oldAt: int, at: int)
    requires c.key !in prior
    ensures Credit(prior, c, oldAt, at) == if oldAt as real <= c.began <= at as real then c.bytes else Bytes(0, 0)
  {
  }

  // ---- whole runs ----

  /** Nothing was lost so far: what was paid and what was left uncredited at the first sighting make up the counter. */
  ghost predicate Exact(a: Account, db: Db, domain: string) {
    match a.last
    case None => a.paid == Bytes(0, 0) && a.base == Bytes(0, 0) && a.key !in db.domainCursor
    case Some(counter) =>
      && a.paid.up + a.base.up == counter.up && a.paid.down + a.base.down == counter.down
      && db.domainState.Some? && a.key in db.domainCursor && db.domainCursor[a.key] == Checkpoint(domain, counter)
  }

  /** A snapshot that the database takes notice of. */
  ghost predicate Notices(db: Db, e: Event) {
    && e.Poll? && Accepted(OutcomeOf(db, e.sample)) && e.sample.connections.Some?
    && (db.domainState.Some? ==> db.domainState.value.at < e.sample.at)
  }

  /** Once seen, the connection is listed in every snapshot under its domain, its counter does not decrease, no reset. */
  ghost predicate Steady(a: Account, db: Db, e: Event, domain: string) {
    Notices(db, e) ==>
      var c := Noticed(db, e, a.key);
      && (a.last.Some? ==> c.Some?)
      && (c.Some? ==> c.value.domain == domain && c.value.bytes.NonNegative())
      && (c.Some? && a.last.Some? ==>
            a.last.value.up <= c.value.bytes.up && a.last.value.down <= c.value.bytes.down
            && (db.domainState.Some? ==> !DomainSpan(db, e.sample).reset))
  }

  /** Retention does not expire the checkpoints. */
  ghost predicate Keeps(db: Db, now: nat) {
    db.domainState.Some? ==> Cutoff(now) <= db.domainState.value.at
  }

  lemma SeenExactly(a: Account, c: Connection, credit: Bytes)
    requires c.bytes.NonNegative()
    requires a.last.None? ==> a.paid == Bytes(0, 0) && a.base == Bytes(0, 0) && (credit == Bytes(0, 0) || credit == c.bytes)
    requires a.last.Some? ==>
               && a.paid.up + a.base.up == a.last.value.up && a.paid.down + a.base.down == a.last.value.down
               && credit == Growth(a.last.value, c.bytes)
    ensures var after := a.Sees(Some(c), credit);
            && after.last == Some(c.bytes)
            && after.paid.up + after.base.up == c.bytes.up && after.paid.down + after.base.down == c.bytes.down
  {
  }

  lemma ListedCredit(a: Account, db: Db, e: Event, domain: string)
    requires Exact(a, db, domain) && Steady(a, db, e, domain) && Noticed(db, e, a.key).Some?
    requires Noticed(db, e, a.key).value.key == a.key
    ensures var c, credit := Noticed(db, e, a.key).value, Paid(db, e, a.key);
            if a.last.None? then credit == Bytes(0, 0) || credit == c.bytes else credit == Growth(a.last.value, c.bytes)
  {
    var c := Noticed(db, e, a.key).value;
    if db.domainState.Some? {
      if a.last.Some? {
        GrowthIsCredited(db.domainCursor, c, db.domainState.value.at, e.sample.at);
      } else {
        FirstListing(db.domainCursor, c, db.domainState.value.at, e.sample.at);
      }
    }
  }

  lemma ListedIsExact(a: Account, db: Db, e: Event, domain: string)
    requires Exact(a, db, domain) && Steady(a, db, e, domain) && Noticed(db, e, a.key).Some?
    requires Noticed(db, e, a.key).value.key == a.key
    ensures var after, c := a.Next(db, e), Noticed(db, e, a.key).value;
            && after.key == a.key && after.last == Some(c.bytes)
            && after.paid.up + after.base.up == c.bytes.up && after.paid.down + after.base.down == c.bytes.down
  {
    ListedCredit(a, db, e, domain);
    SeenExactly(a, Noticed(db, e, a.key).value, Paid(db, e, a.key));
  }

  lemma SnapshotKeepsExact(a: Account, db: Db, e: Event, domain: string)
    requires ValidTimes(db) && Exact(a, db, domain) && Steady(a, db, e, domain) && Notices(db, e)
    ensures Exact(a.Next(db, e), Apply(db, e.sample), domain)
  {
    var conns := e.sample.connections.value;
    SnapshotReplacesCheckpoints(db, e.sample);
    CheckpointOf(conns, a.key, |conns|);
    if Noticed(db, e, a.key).Some? {
      ListedIsExact(a, db, e, domain);
    }
  }

  lemma AppliedKeepsExact(a: Account, db: Db, e: Event, domain: string)
    requires ValidTimes(db) && Exact(a, db, domain) && Steady(a, db, e, domain)
    requires e.Poll? && Accepted(OutcomeOf(db, e.sample))
    ensures Exact(a.Next(db, e), Apply(db, e.sample), domain)
  {
    if Notices(db, e) {
      SnapshotKeepsExact(a, db, e, domain);
    } else {
      OtherSamplesKeepCheckpoints(db, e.sample);
    }
  }

  lemma PruneKeepsExact(a: Account, db: Db, now: nat, domain: string)
    requires Exact(a, db, domain) && Keeps(db, now)
    ensures Exact(a, Prune(db, now), domain)
  {
  }

  lemma StepKeepsExact(a: Account, db: Db, e: Event, domain: string)
    requires ValidTimes(db) && Exact(a, db, domain) && Steady(a, db, e, domain)
    requires Keeps(Unpruned(db, e), PruneTime(e))
    ensures Exact(a.Next(db, e), Step(db, e), domain)
  {
    if e.Retention? {
      PruneKeepsExact(a, db, e.now, domain);
    } else if Accepted(OutcomeOf(db, e.sample)) {
      AppliedKeepsExact(a, db, e, domain);
      AcceptedStep(db, e);
      PruneKeepsExact(a.Next(db, e), Apply(db, e.sample), e.sample.at, domain);
    } else {
      RefusedStep(a, db, e);
    }
  }

  ghost predicate SteadyRun(a: Account, db: Db, events: seq<Event>, domain: string)
    requires ValidTimes(db)
    decreases |events|
  {
    events == [] ||
    (&& Steady(a, db, events[0], domain) && Keeps(Unpruned(db, events[0]), PruneTime(events[0]))
     && SteadyRun(a.Next(db, events[0]), Step(db, events[0]), events[1..], domain))
  }

  ghost function RunOf(a: Account, db: Db, events: seq<Event>): Account
    requires ValidTimes(db)
    decreases |events|
  {
    if events == [] then a else RunOf(a.Next(db, events[0]), Step(db, events[0]), events[1..])
  }

  lemma {:induction false} RunKeepsExact(a: Account, db: Db, events: seq<Event>, domain: string) returns (end: Db)
    requires ValidTimes(db) && Exact(a, db, domain) && SteadyRun(a, db, events, domain)
    ensures Exact(RunOf(a, db, events), end, domain)
    decreases |events|
  {
    if events == [] {
      end := db;
    } else {
      StepKeepsExact(a, db, events[0], domain);
      end := RunKeepsExact(a.Next(db, events[0]), Step(db, events[0]), events[1..], domain);
    }
  }

  /**
   Over any run without reset or expiry in which a connection, once seen, is listed in every snapshot under one
   domain, it is credited exactly its last counter less what its first sighting left uncredited.
   */
  lemma CreditedInFull(key: string, began: real, db: Db, events: seq<Event>, domain: string, dir: Direction)
    requires ValidTimes(db) && key !in db.domainCursor
    requires SteadyRun(Account(key, began, Bytes(0, 0), Bytes(0, 0), None), db, events, domain)
    ensures var a := RunOf(Account(key, began, Bytes(0, 0), Bytes(0, 0), None), db, events);
            if a.last.None? then a.paid == Bytes(0, 0) else a.paid.Of(dir) == a.last.value.Of(dir) - a.base.Of(dir)
  {
    var end := RunKeepsExact(Account(key, began, Bytes(0, 0), Bytes(0, 0), None), db, events, domain);
  }

  /** A snapshot that lists the connection under another domain credits it nothing. */
  lemma OtherDomainPaysNothing(a: Account, db: Db, e: Event)
    requires Noticed(db, e, a.key).Some? && Noticed(db, e, a.key).value.key == a.key
    requires a.key in db.domainCursor && Noticed(db, e, a.key).value.domain != db.domainCursor[a.key].domain
    ensures Paid(db, e, a.key) == Bytes(0, 0) && a.Next(db, e).paid == a.paid
  {
    if db.domainState.Some? {
      ChangeIsNotCredited(db.domainCursor, Noticed(db, e, a.key).value, db.domainState.value.at, e.sample.at);
    }
  }

  // ---- domains ----

  /** What the first n connections of a snapshot were paid, in one domain. */
  function PaidTo(db: Db, e: Event, conns: seq<Connection>, domain: string, dir: Direction, n: nat): int
    requires n <= |conns|
  {
    if n == 0 then 0
    else PaidTo(db, e, conns, domain, dir, n - 1)
         + (if conns[n - 1].domain == domain then Paid(db, e, conns[n - 1].key).Of(dir) else 0)
  }

  lemma {:induction false} ListedAt(conns: seq<Connection>, i: nat, n: nat)
    requires i < n <= |conns| && forall j :: i < j < n ==> conns[j].key != conns[i].key
    ensures Listed(conns, conns[i].key, n) == Some(conns[i])
  {
    if i < n - 1 {
      ListedAt(conns, i, n - 1);
    }
  }

  lemma PaidIsCredit(db: Db, e: Event, i: nat)
    requires Notices(db, e) && db.domainState.Some? && !DomainSpan(db, e.sample).reset
    requires ConnectionsValid(e.sample.connections.value) && i < |e.sample.connections.value|
    ensures var c := e.sample.connections.value[i];
            Paid(db, e, c.key) == Credit(db.domainCursor, c, db.domainState.value.at, e.sample.at)
  {
    var conns := e.sample.connections.value;
    ListedAt(conns, i, |conns|);
  }

  /** The raw usage of a domain is what its connections were paid. */
  lemma {:induction false} TallyIsPaid(db: Db, e: Event, domain: string, dir: Direction, n: nat)
    requires Notices(db, e) && db.domainState.Some? && !DomainSpan(db, e.sample).reset
    requires ConnectionsValid(e.sample.connections.value) && n <= |e.sample.connections.value|
    ensures var conns := e.sample.connections.value;
            At(Tally(db.domainCursor, conns, db.domainState.value.at, e.sample.at, n), domain).Of(dir) ==
              PaidTo(db, e, conns, domain, dir, n)
  {
    if n > 0 {
      TallyIsPaid(db, e, domain, dir, n - 1);
      PaidIsCredit(db, e, n - 1);
    }
  }

  lemma Uncapped(usage: Usage, delta: Bytes)
    requires UsageTotal(usage, Upload) <= delta.up && UsageTotal(usage, Download) <= delta.down
    ensures CappedUsage(usage, delta) == usage
  {
  }

  /** When the cap does not apply, a domain is attributed exactly what its connections were paid. */
  lemma DomainIsPaid(db: Db, e: Event, domain: string, dir: Direction)
    requires Notices(db, e) && db.domainState.Some? && !DomainSpan(db, e.sample).reset
    requires ConnectionsValid(e.sample.connections.value) && domain != UNATTRIBUTED
    requires var span := DomainSpan(db, e.sample);
             var raw := SnapshotUsage(db, e.sample, span);
             UsageTotal(raw, Upload) <= span.delta.up && UsageTotal(raw, Download) <= span.delta.down
    ensures var span, conns := DomainSpan(db, e.sample), e.sample.connections.value;
            At(Attribute(SnapshotUsage(db, e.sample, span), span.delta), domain).Of(dir) ==
              PaidTo(db, e, conns, domain, dir, |conns|)
  {
    var span, conns := DomainSpan(db, e.sample), e.sample.connections.value;
    Uncapped(SnapshotUsage(db, e.sample, span), span.delta);
    TallyIsPaid(db, e, domain, dir, |conns|);
  }
}
