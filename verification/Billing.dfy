/** A connection's bytes are credited to domains at most once over a whole run. */
module Billing {
  import opened Sums
  import opened Calendar
  import opened Wrappers
  import opened Database
  import opened Conservation

  /** A sample that is recorded, or a retention pass on its own. */
  datatype Event = Poll(sample: Sample) | Retention(now: nat)

  /** The connection a snapshot lists under a key. */
  function Listed(conns: seq<Connection>, key: string, n: nat): Option<Connection>
    requires n <= |conns|
  {
    if n == 0 then None
    else if conns[n - 1].key == key then Some(conns[n - 1])
    else Listed(conns, key, n - 1)
  }

  /** The connection an event takes notice of, if any. */
  function Noticed(db: Db, e: Event, key: string): Option<Connection> {
    if e.Poll? && Accepted(OutcomeOf(db, e.sample)) && e.sample.connections.Some?
       && (db.domainState.Some? ==> db.domainState.value.at < e.sample.at)
    then Listed(e.sample.connections.value, key, |e.sample.connections.value|)
    else None
  }

  function DomainSpan(db: Db, s: Sample): Span
    requires db.domainState.Some?
  {
    var prev := db.domainState.value;
    Between(prev.at, prev.bytes, prev.epoch, s.at, s.bytes, s.epoch, s.interval)
  }

  /** What an event credits to a connection, whatever domain it is booked under. */
  function Paid(db: Db, e: Event, key: string): Bytes {
    var c := Noticed(db, e, key);
    if c.None? || db.domainState.None? || DomainSpan(db, e.sample).reset then Bytes(0, 0)
    else Credit(db.domainCursor, c.value, db.domainState.value.at, e.sample.at)
  }

  ghost function Unpruned(db: Db, e: Event): Db
    requires ValidTimes(db)
  {
    if e.Poll? && Accepted(OutcomeOf(db, e.sample)) then Apply(db, e.sample) else db
  }

  ghost function Step(db: Db, e: Event): (after: Db)
    requires ValidTimes(db)
    ensures ValidTimes(after)
  {
    match e
    case Poll(s) =>
      RecordTimes(db, s);
      Record(db, s)
    case Retention(now) => Prune(db, now)
  }

  function Growth(from: Bytes, to: Bytes): Bytes {
    Bytes(to.up - from.up, to.down - from.down)
  }

  /** Paid bytes and the uncredited start do not exceed a counter, in either direction. */
  ghost predicate Within(paid: Bytes, base: Bytes, counter: Bytes) {
    base.NonNegative() && paid.up + base.up <= counter.up && paid.down + base.down <= counter.down
  }

  /** The connection of a run: when it began, what it paid, where it is counted from and its last counter. */
  datatype Account = Account(key: string, began: real, paid: Bytes, base: Bytes, last: Option<Bytes>) {
    ghost predicate Fair(db: Db) {
      match last
      case None =>
        paid == Bytes(0, 0) && base == Bytes(0, 0) && key !in db.domainCursor
      case Some(counter) =>
        && Within(paid, base, counter)
        && db.domainState.Some?
        && (if key in db.domainCursor then db.domainCursor[key].bytes == counter
            else began < db.domainState.value.at as real)
    }

    /** A first sighting that is credited counts from zero, one that is not from its counter. */
    function Sees(c: Option<Connection>, credit: Bytes): Account {
      match c
      case None => this
      case Some(conn) =>
        var start := if last.Some? || credit == conn.bytes then base else conn.bytes;
        Account(key, began, Bytes(paid.up + credit.up, paid.down + credit.down), start, Some(conn.bytes))
    }

    function Next(db: Db, e: Event): Account {
      Sees(Noticed(db, e, key), Paid(db, e, key))
    }

    /**
     Counters of the connection never decrease and it is not listed before it began. The time of a sample is
     truncated to whole seconds, the beginning of a connection is not.
     */
    ghost predicate Honest(db: Db, e: Event) {
      var c := Noticed(db, e, key);
      c.Some? ==>
        && c.value.began == began && began < (e.sample.at + 1) as real
        && ValidCounters(c.value.bytes)
        && (last.Some? ==> last.value.up <= c.value.bytes.up && last.value.down <= c.value.bytes.down)
    }

    /** Retention does not expire the checkpoint of a connection that began in the very second it was last listed. */
    ghost predicate Unexpired(db: Db, now: nat) {
      key in db.domainCursor && db.domainState.Some? && db.domainState.value.at < Cutoff(now) ==>
        began < db.domainState.value.at as real
    }
  }

  lemma {:induction false} CheckpointOf(conns: seq<Connection>, key: string, n: nat)
    requires n <= |conns|
    ensures var c := Listed(conns, key, n);
            if c.None? then key !in Checkpoints(conns, n)
            else key in Checkpoints(conns, n) && Checkpoints(conns, n)[key] == Checkpoint(c.value.domain, c.value.bytes)
    ensures Listed(conns, key, n).Some? ==> Listed(conns, key, n).value.key == key
  {
    if n > 0 {
      CheckpointOf(conns, key, n - 1);
    }
  }

  lemma SnapshotReplacesCheckpoints(db: Db, s: Sample)
    requires ValidTimes(db) && Accepted(OutcomeOf(db, s)) && s.connections.Some?
    requires db.domainState.Some? ==> db.domainState.value.at < s.at
    ensures Apply(db, s).domainCursor == Checkpoints(s.connections.value, |s.connections.value|)
    ensures Apply(db, s).domainState.Some? && Apply(db, s).domainState.value.at == s.at
  {
  }

  lemma OtherSamplesKeepCheckpoints(db: Db, s: Sample)
    requires ValidTimes(db) && Accepted(OutcomeOf(db, s))
    requires s.connections.None? || (db.domainState.Some? && s.at <= db.domainState.value.at)
    ensures Apply(db, s).domainCursor == db.domainCursor && Apply(db, s).domainState == db.domainState
  {
  }

  /** A credit never exceeds the growth since the checkpoint, and is all or nothing without one. */
  lemma CreditBounds(prior: map<string, Checkpoint>, c: Connection, oldAt: int, at: int)
    requires ValidCounters(c.bytes)
    ensures var credit := Credit(prior, c, oldAt, at);
            if c.key in prior
            then credit == Bytes(0, 0) || credit == Growth(prior[c.key].bytes, c.bytes)
            else credit == Bytes(0, 0) || (credit == c.bytes && oldAt as real <= c.began)
  {
  }

  lemma PaidCases(a: Account, db: Db, e: Event)
    requires a.Fair(db) && a.Honest(db, e) && Noticed(db, e, a.key).Some?
    requires Noticed(db, e, a.key).value.key == a.key
    ensures var counter, credit := Noticed(db, e, a.key).value.bytes, Paid(db, e, a.key);
            credit == Bytes(0, 0) || credit == (if a.last.None? then counter else Growth(a.last.value, counter))
  {
    var c := Noticed(db, e, a.key).value;
    if db.domainState.Some? {
      CreditBounds(db.domainCursor, c, db.domainState.value.at, e.sample.at);
    }
  }

  lemma WithinGrows(paid: Bytes, base: Bytes, last: Bytes, credit: Bytes, counter: Bytes)
    requires Within(paid, base, last) && last.up <= counter.up && last.down <= counter.down
    requires credit == Bytes(0, 0) || credit == Growth(last, counter)
    ensures Within(Bytes(paid.up + credit.up, paid.down + credit.down), base, counter)
  {
  }

  lemma CreditIsFair(a: Account, db: Db, e: Event)
    requires a.Fair(db) && a.Honest(db, e) && Noticed(db, e, a.key).Some?
    requires Noticed(db, e, a.key).value.key == a.key
    ensures var after, counter := a.Next(db, e), Noticed(db, e, a.key).value.bytes;
            after.last == Some(counter) && Within(after.paid, after.base, counter)
  {
    PaidCases(a, db, e);
    if a.last.None? {
      SeenFirst(a, Noticed(db, e, a.key).value, Paid(db, e, a.key));
    } else {
      SeenAgain(a, Noticed(db, e, a.key).value, Paid(db, e, a.key));
    }
  }

  lemma SeenFirst(a: Account, c: Connection, credit: Bytes)
    requires c.bytes.NonNegative() && (credit == Bytes(0, 0) || credit == c.bytes)
    requires a.last.None? && a.paid == Bytes(0, 0) && a.base == Bytes(0, 0)
    ensures var after := a.Sees(Some(c), credit); after.last == Some(c.bytes) && Within(after.paid, after.base, c.bytes)
  {
  }

  lemma SeenAgain(a: Account, c: Connection, credit: Bytes)
    requires a.last.Some? && Within(a.paid, a.base, a.last.value)
    requires a.last.value.up <= c.bytes.up && a.last.value.down <= c.bytes.down
    requires credit == Bytes(0, 0) || credit == Growth(a.last.value, c.bytes)
    ensures var after := a.Sees(Some(c), credit); after.last == Some(c.bytes) && Within(after.paid, after.base, c.bytes)
  {
    WithinGrows(a.paid, a.base, a.last.value, credit, c.bytes);
  }

  /** An account is fair right after a snapshot that lists the connection with its last counter, or does not list it. */
  lemma FairAfterSnapshot(a: Account, after: Db, conns: seq<Connection>, at: nat)
    requires after.domainCursor == Checkpoints(conns, |conns|)
    requires after.domainState.Some? && after.domainState.value.at == at
    requires var c := Listed(conns, a.key, |conns|);
             if c.Some? then a.last == Some(c.value.bytes)
             else || (a.last.None? && a.paid == Bytes(0, 0) && a.base == Bytes(0, 0))
                  || (a.last.Some? && a.began < at as real)
    requires a.last.Some? ==> Within(a.paid, a.base, a.last.value)
    ensures a.Fair(after)
  {
    CheckpointOf(conns, a.key, |conns|);
  }

  /** A known connection began no later than in the second of the last snapshot. */
  ghost predicate BeganBefore(a: Account, db: Db) {
    a.last.Some? && db.domainState.Some? ==> a.began < (db.domainState.value.at + 1) as real
  }

  lemma SnapshotKeepsFair(a: Account, db: Db, e: Event, after: Db)
    requires a.Fair(db) && BeganBefore(a, db) && a.Honest(db, e)
    requires e.Poll? && Accepted(OutcomeOf(db, e.sample)) && e.sample.connections.Some?
    requires db.domainState.Some? ==> db.domainState.value.at < e.sample.at
    requires var conns := e.sample.connections.value; after.domainCursor == Checkpoints(conns, |conns|)
    requires after.domainState.Some? && after.domainState.value.at == e.sample.at
    ensures a.Next(db, e).Fair(after) && BeganBefore(a.Next(db, e), after)
  {
    var conns := e.sample.connections.value;
    CheckpointOf(conns, a.key, |conns|);
    if Noticed(db, e, a.key).Some? {
      CreditIsFair(a, db, e);
    }
    FairAfterSnapshot(a.Next(db, e), after, conns, e.sample.at);
  }

  /** One snapshot keeps the account fair. */
  lemma NoticeKeepsFair(a: Account, db: Db, e: Event)
    requires ValidTimes(db) && a.Fair(db) && BeganBefore(a, db) && a.Honest(db, e)
    requires e.Poll? && Accepted(OutcomeOf(db, e.sample))
    ensures a.Next(db, e).Fair(Apply(db, e.sample)) && BeganBefore(a.Next(db, e), Apply(db, e.sample))
  {
    var s := e.sample;
    if s.connections.Some? && (db.domainState.Some? ==> db.domainState.value.at < s.at) {
      SnapshotReplacesCheckpoints(db, s);
      SnapshotKeepsFair(a, db, e, Apply(db, s));
    } else {
      OtherSamplesKeepCheckpoints(db, s);
    }
  }

  lemma PruneKeepsFair(a: Account, db: Db, now: nat)
    requires a.Fair(db) && BeganBefore(a, db) && a.Unexpired(db, now)
    ensures a.Fair(Prune(db, now)) && BeganBefore(a, Prune(db, now))
  {
  }

  ghost function PruneTime(e: Event): nat { if e.Poll? then e.sample.at else e.now }

  lemma RetentionKeepsFair(a: Account, db: Db, e: Event)
    requires ValidTimes(db) && a.Fair(db) && BeganBefore(a, db) && e.Retention?
    requires a.Next(db, e).Unexpired(Unpruned(db, e), PruneTime(e))
    ensures a.Next(db, e).Fair(Step(db, e)) && BeganBefore(a.Next(db, e), Step(db, e))
  {
    assert a.Next(db, e) == a && Unpruned(db, e) == db;
    FairIsKept(a, db, e.now, Step(db, e));
  }

  lemma AcceptedKeepsFair(a: Account, db: Db, e: Event)
    requires ValidTimes(db) && a.Fair(db) && BeganBefore(a, db) && a.Honest(db, e)
    requires e.Poll? && Accepted(OutcomeOf(db, e.sample))
    requires a.Next(db, e).Unexpired(Unpruned(db, e), PruneTime(e))
    ensures a.Next(db, e).Fair(Step(db, e)) && BeganBefore(a.Next(db, e), Step(db, e))
  {
    NoticeKeepsFair(a, db, e);
    AcceptedStep(db, e);
    FairIsKept(a.Next(db, e), Apply(db, e.sample), e.sample.at, Step(db, e));
  }

  lemma FairIsKept(a: Account, db: Db, now: nat, after: Db)
    requires a.Fair(db) && BeganBefore(a, db) && a.Unexpired(db, now) && after == Prune(db, now)
    ensures a.Fair(after) && BeganBefore(a, after)
  {
    PruneKeepsFair(a, db, now);
  }

  lemma AcceptedStep(db: Db, e: Event)
    requires ValidTimes(db) && e.Poll? && Accepted(OutcomeOf(db, e.sample))
    ensures Unpruned(db, e) == Apply(db, e.sample) && Step(db, e) == Prune(Apply(db, e.sample), e.sample.at)
  {
  }

  lemma RefusedKeepsFair(a: Account, db: Db, e: Event)
    requires ValidTimes(db) && a.Fair(db) && BeganBefore(a, db)
    requires e.Poll? && !Accepted(OutcomeOf(db, e.sample))
    ensures a.Next(db, e).Fair(Step(db, e)) && BeganBefore(a.Next(db, e), Step(db, e))
  {
    RefusedStep(a, db, e);
  }

  lemma RefusedStep(a: Account, db: Db, e: Event)
    requires ValidTimes(db) && e.Poll? && !Accepted(OutcomeOf(db, e.sample))
    ensures Step(db, e) == db && a.Next(db, e) == a
  {
  }

  /** A run in which the connection behaves and its checkpoint is not expired too early. */
  ghost predicate HonestRun(a: Account, db: Db, events: seq<Event>)
    requires ValidTimes(db)
    decreases |events|
  {
    events == [] ||
    (&& a.Honest(db, events[0])
     && a.Next(db, events[0]).Unexpired(Unpruned(db, events[0]), PruneTime(events[0]))
     && HonestRun(a.Next(db, events[0]), Step(db, events[0]), events[1..]))
  }

  /** The account after a run; its `paid` field is the sum of everything credited. */
  ghost function RunAccount(a: Account, db: Db, events: seq<Event>): Account
    requires ValidTimes(db) && HonestRun(a, db, events)
    decreases |events|
  {
    if events == [] then a
    else RunAccount(a.Next(db, events[0]), Step(db, events[0]), events[1..])
  }

  lemma {:induction false} RunKeepsFair(a: Account, db: Db, events: seq<Event>) returns (end: Db)
    requires ValidTimes(db) && a.Fair(db) && BeganBefore(a, db) && HonestRun(a, db, events)
    ensures RunAccount(a, db, events).Fair(end)
    decreases |events|
  {
    if events == [] {
      end := db;
    } else {
      var e := events[0];
      if e.Retention? {
        RetentionKeepsFair(a, db, e);
      } else if Accepted(OutcomeOf(db, e.sample)) {
        AcceptedKeepsFair(a, db, e);
      } else {
        RefusedKeepsFair(a, db, e);
      }
      end := RunKeepsFair(a.Next(db, events[0]), Step(db, events[0]), events[1..]);
    }
  }

  /**
   No re-billing: over any run, whatever domains the connection is seen under, however often it vanishes
   and returns and whenever the source resets, the credits never exceed its final counter, less the first
   observed counter when its first sighting was not credited.
   */
  lemma NoRebilling(key: string, began: real, db: Db, events: seq<Event>, dir: Direction)
    requires ValidTimes(db) && key !in db.domainCursor
    requires HonestRun(Account(key, began, Bytes(0, 0), Bytes(0, 0), None), db, events)
    ensures var a := RunAccount(Account(key, began, Bytes(0, 0), Bytes(0, 0), None), db, events);
            if a.last.None? then a.paid == Bytes(0, 0)
            else 0 <= a.base.Of(dir) && a.paid.Of(dir) <= a.last.value.Of(dir) - a.base.Of(dir)
  {
    var end := RunKeepsFair(Account(key, began, Bytes(0, 0), Bytes(0, 0), None), db, events);
  }

  // ---- expired checkpoints ----

  /** Retention has dropped the checkpoint of a listed connection. */
  ghost predicate Expires(a: Account, db: Db, now: nat) {
    a.key in db.domainCursor && db.domainState.Some? && db.domainState.value.at < Cutoff(now)
  }

  /** A snapshot that lists the connection again without a reset. */
  ghost predicate ListedAgain(a: Account, db: Db, s: Sample) {
    var c := Noticed(db, Poll(s), a.key);
    db.domainState.Some? && c.Some? && c.value.key == a.key && !DomainSpan(db, s).reset
  }

  lemma ExpiredCredit(a: Account, db: Db, now: nat, s: Sample)
    requires Expires(a, db, now) && BeganBefore(a, db) && a.last.Some?
    requires ListedAgain(a, Prune(db, now), s) && a.Honest(Prune(db, now), Poll(s))
    ensures var c := Noticed(Prune(db, now), Poll(s), a.key).value;
            Paid(Prune(db, now), Poll(s), a.key) ==
              if db.domainState.value.at as real <= a.began then c.bytes else Bytes(0, 0)
  {
  }

  /**
   The condition on retention is needed. Once the checkpoint of a listed connection has expired, the next snapshot
   that lists it keeps its credits within its counter exactly when the connection began before the second of the
   last snapshot, or when nothing was credited or left uncredited so far. Otherwise it is billed twice.
   */
  lemma ExpiredCheckpoint(a: Account, db: Db, now: nat, s: Sample)
    requires a.Fair(db) && BeganBefore(a, db) && Expires(a, db, now)
    requires ListedAgain(a, Prune(db, now), s) && a.Honest(Prune(db, now), Poll(s))
    ensures var after := a.Next(Prune(db, now), Poll(s));
            && after.last.Some?
            && (Within(after.paid, after.base, after.last.value) <==>
                  a.began < db.domainState.value.at as real
                  || (a.paid.up + a.base.up <= 0 && a.paid.down + a.base.down <= 0))
  {
    ExpiredCredit(a, db, now, s);
  }

  /** Totals and domains were both last sampled at this instant. */
  ghost predicate SampledAt(db: Db, at: nat, bytes: Bytes) {
    && db.cursor.Some? && db.cursor.value == Cursor(at, bytes, "e", "s")
    && db.domainState.Some? && db.domainState.value == DomainState(at, bytes, "e", db.domainState.value.started)
  }

  /** A database whose last snapshot listed one connection with one byte. */
  ghost predicate OneListed(db: Db, at: nat, key: string) {
    && SampledAt(db, at, Bytes(1, 0)) && key in db.domainCursor
    && db.domainCursor[key] == Checkpoint("d", Bytes(1, 0))
  }

  /** A snapshot of the same source that lists a connection of one byte. */
  ghost predicate ListsOne(s: Sample, at: nat, key: string, began: real) {
    && s.at == at && s.bytes == Bytes(1, 0) && s.epoch == "e" && s.source == "s"
    && s.connections.Some? && |s.connections.value| == 1
    && s.connections.value[0] == Connection(key, "d", Bytes(1, 0), began)
  }

  lemma ListedOne(conns: seq<Connection>, key: string)
    requires |conns| == 1 && conns[0].key == key
    ensures Listed(conns, key, |conns|) == Some(conns[0])
    ensures var all := Checkpoints(conns, |conns|);
            key in all && all[key] == Checkpoint(conns[0].domain, conns[0].bytes)
  {
  }

  lemma SnapshotLeaves(db: Db, s: Sample)
    requires ValidTimes(db) && Accepted(OutcomeOf(db, s)) && s.connections.Some?
    requires db.domainState.Some? && db.domainState.value.at < s.at
    ensures Record(db, s).cursor == Some(Cursor(s.at, s.bytes, s.epoch, s.source))
    ensures Record(db, s).domainState == Some(DomainState(s.at, s.bytes, s.epoch, db.domainState.value.started))
    ensures Record(db, s).domainCursor == Checkpoints(s.connections.value, |s.connections.value|)
  {
    SnapshotReplacesCheckpoints(db, s);
    CutoffWindow(s.at);
  }

  lemma FirstByte(db: Db, before: nat, at: nat, key: string, s: Sample)
    requires SampledAt(db, before, Bytes(0, 0)) && db.domainCursor == map[] && before < at
    requires ListsOne(s, at, key, at as real)
    ensures Accepted(OutcomeOf(db, s))
    ensures Account(key, at as real, Bytes(0, 0), Bytes(0, 0), None).Next(db, Poll(s)) ==
              Account(key, at as real, Bytes(1, 0), Bytes(0, 0), Some(Bytes(1, 0)))
  {
    ListedOne(s.connections.value, key);
  }

  /** A snapshot credits a connection that began in its second the first byte. */
  lemma BilledOnce(db: Db, before: nat, at: nat, key: string, s: Sample)
    requires SampledAt(db, before, Bytes(0, 0)) && db.domainCursor == map[] && before < at
    requires ListsOne(s, at, key, at as real)
    ensures OneListed(Record(db, s), at, key)
    ensures Account(key, at as real, Bytes(0, 0), Bytes(0, 0), None).Next(db, Poll(s)) ==
              Account(key, at as real, Bytes(1, 0), Bytes(0, 0), Some(Bytes(1, 0)))
  {
    FirstByte(db, before, at, key, s);
    ListedOne(s.connections.value, key);
    SnapshotLeaves(db, s);
  }

  /** The snapshot after its checkpoint expired credits it again: two bytes are billed for a counter of one. */
  lemma BilledTwice(db: Db, at: nat, key: string, s: Sample)
    requires OneListed(db, at, key) && at < Cutoff(s.at) && ListsOne(s, s.at, key, at as real)
    ensures var a := Account(key, at as real, Bytes(1, 0), Bytes(0, 0), Some(Bytes(1, 0)));
            && a.Fair(db) && BeganBefore(a, db) && a.Honest(Prune(db, s.at), Poll(s))
            && a.Next(Prune(db, s.at), Poll(s)) == Account(key, at as real, Bytes(2, 0), Bytes(0, 0), Some(Bytes(1, 0)))
  {
    var a := Account(key, at as real, Bytes(1, 0), Bytes(0, 0), Some(Bytes(1, 0)));
    CutoffWindow(s.at);
    ListedOne(s.connections.value, key);
    ExpiredCredit(a, db, s.at, s);
  }

  /** For example at second 1000 and 100 days later. */
  lemma BilledTwiceAfter(at: nat, now: nat)
    requires at == 1000 && now == 100 * DAY
    ensures at < Cutoff(now)
  {
    CutoffWindow(now);
  }
}
