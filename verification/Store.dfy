/**
 The traffic store: methods that update the tables in place, each proved to be exactly the
 transaction that module Database defines.
 */
module Store {
  import opened Sums
  import opened Allocation
  import opened Calendar
  import opened Ordering
  import opened Wrappers
  import opened Database
  import Attribution

  /** The sum of one direction of a dictionary. */
  method SumColumn(usage: Usage, order: seq<string>, dir: Direction) returns (total: int)
    requires forall k :: k in order ==> k in usage
    ensures total == Total(Column(usage, order, dir))
  {
    ghost var vals := Column(usage, order, dir);
    total := 0;
    for i := 0 to |order|
      invariant total == Prefix(vals, i)
    {
      assert order[i] in order;
      total := total + usage[order[i]].Of(dir);
    }
  }

  /** A value's part of a budget, by cumulative division. */
  method PartOf(budget: int, total: int, consumed: int, value: int) returns (part: int)
    ensures part == Portion(budget, total, consumed, value)
  {
    part := if total == 0 then 0 else budget * (consumed + value) / total - budget * consumed / total;
  }

  /** The value each domain gets from what was consumed before it and what it used. */
  ghost function Parts(part: (int, int) -> int, vals: seq<int>): (parts: seq<int>)
    ensures |parts| == |vals|
  {
    seq(|vals|, i requires 0 <= i < |vals| => part(Prefix(vals, i), vals[i]))
  }

  /** Gives each domain its part in one direction. */
  method ScaleColumn(usage: Usage, order: seq<string>, dir: Direction, part: (int, int) -> int) returns (scaled: Usage)
    requires Distinct(order) && (forall k :: k in order ==> k in usage)
    ensures scaled == Assign(usage, order, dir, Parts(part, Column(usage, order, dir)), |order|)
  {
    ghost var vals := Column(usage, order, dir);
    ghost var kept := Parts(part, vals);
    scaled := usage;
    var consumed := 0;
    for i := 0 to |order|
      invariant scaled == Assign(usage, order, dir, kept, i)
      invariant consumed == Prefix(vals, i)
    {
      Attribution.AssignedNext(usage, order, dir, kept, i);
      var value := scaled[order[i]].Of(dir);
      scaled := scaled[order[i] := scaled[order[i]].With(dir, part(consumed, value))];
      consumed := consumed + value;
    }
  }

  /** Scales one direction of a dictionary down to its budget; reports what was clipped. */
  method CapColumn(usage: Usage, dir: Direction, budget: nat) returns (capped: Usage, clipped: int)
    ensures capped == CapDirection(usage, dir, budget)
    ensures clipped == Clipped(UsageTotal(usage, dir), budget)
  {
    NamesTotal();
    var order := Sort(usage.Keys, NameLeq);
    assert order == SortedNames(usage.Keys);
    var total := SumColumn(usage, order, dir);
    clipped := Min(MAX_COUNTER, Max(0, total - budget));
    capped := usage;
    if total > budget {
      capped := ScaleColumn(usage, order, dir, (consumed, value) => Portion(budget, total, consumed, value));
      assert Parts((consumed, value) => Portion(budget, total, consumed, value), Column(usage, order, dir)) ==
             Capped(Column(usage, order, dir), budget);
    }
  }

  /** Caps both directions and books the rest of the delta as unattributed. */
  method CapUsage(raw: Usage, delta: Bytes) returns (usage: Usage, clipped: Bytes)
    requires delta.NonNegative()
    ensures usage == Attribute(raw, delta)
    ensures clipped == ClippedBytes(raw, delta)
  {
    var once, clippedUp := CapColumn(raw, Upload, delta.up);
    var kept, clippedDown := CapColumn(once, Download, delta.down);
    Attribution.OtherDirectionKept(raw, Upload, delta.up);
    clipped := Bytes(clippedUp, clippedDown);
    var rest := Leftover(kept, delta);
    usage := kept[UNATTRIBUTED := rest];
  }

  /** What the domains of a dictionary leave of a delta. */
  method Leftover(kept: Usage, delta: Bytes) returns (rest: Bytes)
    ensures rest == Remainder(kept, delta)
  {
    NamesTotal();
    var order := Sort(kept.Keys, NameLeq);
    assert order == SortedNames(kept.Keys);
    var up := SumColumn(kept, order, Upload);
    var down := SumColumn(kept, order, Download);
    rest := Bytes(delta.up - up, delta.down - down);
  }

  /** What falls between two positions of an interval, by cumulative division. */
  method SliceOf(span: Span, delta: Bytes, position: int, end: int) returns (share: Bytes)
    requires span.oldAt < span.at
    ensures share == span.Share(delta, position, end)
  {
    var duration := span.at - span.oldAt;
    var left, right := position - span.oldAt, end - span.oldAt;
    var u := delta.up * right / duration - delta.up * left / duration;
    var d := delta.down * right / duration - delta.down * left / duration;
    share := Bytes(u, d);
  }

  /** One domain's part of a slice's budget in both directions. */
  method PieceOf(budget: Bytes, delta: Bytes, consumed: Bytes, used: Bytes) returns (piece: Bytes)
    ensures piece == Bytes(Portion(budget.up, delta.up, consumed.up, used.up),
                           Portion(budget.down, delta.down, consumed.down, used.down))
  {
    var u := PartOf(budget.up, delta.up, consumed.up, used.up);
    var d := PartOf(budget.down, delta.down, consumed.down, used.down);
    piece := Bytes(u, d);
  }

  class Store {
    var buckets: map<int, Row>
    var cursor: Option<Cursor>
    var domainBuckets: map<Key, Bytes>
    var domainState: Option<DomainState>
    var domainCursor: map<string, Checkpoint>
    var sampling: map<int, Sampling>
    var epochs: map<string, EpochRow>
    var kernelStarted: Option<int>

    ghost function Contents(): Db
      reads this
    {
      Db(buckets, cursor, domainBuckets, domainState, domainCursor, sampling, epochs, kernelStarted)
    }

    constructor ()
      ensures Contents() == EMPTY
    {
      buckets, cursor, domainBuckets, domainState := map[], None, map[], None;
      domainCursor, sampling, epochs, kernelStarted := map[], map[], map[], None;
    }

    method Prune(now: nat)
      modifies this
      ensures Contents() == Database.Prune(old(Contents()), now)
    {
      var cut := Cutoff(now);
      buckets := map k | k in buckets && k >= cut :: buckets[k];
      domainBuckets := map k | k in domainBuckets && k.start >= cut :: domainBuckets[k];
      sampling := map k | k in sampling && k >= cut :: sampling[k];
      if domainState.Some? && domainState.value.at < cut {
        domainCursor := map[];
      }
    }

    /** Adds the share of the interval to each bucket it overlaps. */
    method FillBuckets(span: Span)
      requires span.oldAt < span.at && 0 <= span.at
      modifies this`buckets
      ensures buckets == Fill(old(buckets), span, span.Begin(), span.Begin())
    {
      var begin := Max(span.oldAt, Cutoff(span.at));
      var position := begin;
      while position < span.at
        invariant begin <= position
        invariant Fill(buckets, span, begin, position) == Fill(old(buckets), span, begin, begin)
        decreases span.at - position
      {
        SliceAdvances(position, span.at);
        var start := BucketOf(position);
        var end := SliceEnd(position, span.at);
        var share := SliceOf(span, span.delta, position, end);
        var seconds := end - position;
        var row := Row(share, if span.estimated then 0 else seconds, if span.estimated then seconds else 0,
                       if span.reset && position == begin then 1 else 0);
        assert row == span.RowFor(begin, position);
        buckets := AddRow(buckets, start, row);
        position := end;
      }
    }

    method BookPiece(key: Key, piece: Bytes)
      modifies this`domainBuckets
      ensures domainBuckets == AddDomain(old(domainBuckets), key, piece)
    {
      if piece.up != 0 || piece.down != 0 {
        domainBuckets := Upsert(domainBuckets, key, piece);
      }
    }

    /** Books a slice's budget under the domains of an order. */
    method BookPieces(bucket: int, budget: Bytes, delta: Bytes, usage: Usage, order: seq<string>)
      requires forall k :: k in order ==> k in usage
      modifies this`domainBuckets
      ensures domainBuckets ==
              Deal(old(domainBuckets), bucket, order, Pieces(budget, delta, usage, order), |order|)
    {
      ghost var pieces := Pieces(budget, delta, usage, order);
      ghost var ups, downs := Column(usage, order, Upload), Column(usage, order, Download);
      var consumed := Bytes(0, 0);
      for i := 0 to |order|
        invariant domainBuckets == Deal(old(domainBuckets), bucket, order, pieces, i)
        invariant consumed.up == Prefix(ups, i) && consumed.down == Prefix(downs, i)
      {
        assert order[i] in order;
        var used := usage[order[i]];
        var piece := PieceOf(budget, delta, consumed, used);
        assert piece == pieces[i];
        consumed := Bytes(consumed.up + used.up, consumed.down + used.down);
        BookPiece(Key(bucket, order[i]), piece);
      }
    }

    /** Books the budget of the slice at a position under the domains of the dictionary, in order. */
    method BookSlice(span: Span, usage: Usage, order: seq<string>, position: int)
      requires span.oldAt <= position < span.at
      requires forall k :: k in order ==> k in usage
      modifies this`domainBuckets
      ensures domainBuckets == DealSlice(old(domainBuckets), span, usage, order, position)
    {
      var budget := SliceOf(span, span.delta, position, SliceEnd(position, span.at));
      BookPieces(BucketOf(position), budget, span.delta, usage, order);
    }

    /** Adds one slice's seconds, resets and clipped bytes to the sampling table. */
    method SampleSlice(span: Span, begin: int, clipped: Bytes, position: int)
      requires span.oldAt <= position < span.at
      modifies this`sampling
      ensures sampling ==
              AddSampling(old(sampling), BucketOf(position), span.SamplingFor(begin, position, clipped))
    {
      var end := SliceEnd(position, span.at);
      var share := SliceOf(span, clipped, position, end);
      var seconds := end - position;
      var row := Sampling(if span.estimated then 0 else seconds, if span.estimated then seconds else 0,
                          if span.reset && position == begin then 1 else 0, share);
      assert row == span.SamplingFor(begin, position, clipped);
      sampling := AddSampling(sampling, BucketOf(position), row);
    }

    /** Spreads the attributed dictionary and the sampling quality over the buckets of the interval. */
    method FillAttribution(span: Span, usage: Usage, order: seq<string>, clipped: Bytes)
      requires span.oldAt < span.at && 0 <= span.at
      requires forall k :: k in order ==> k in usage
      modifies this`domainBuckets, this`sampling
      ensures domainBuckets == FillDomains(old(domainBuckets), span, usage, order, span.Begin())
      ensures sampling == FillSampling(old(sampling), span, span.Begin(), clipped, span.Begin())
    {
      var begin := Max(span.oldAt, Cutoff(span.at));
      var position := begin;
      while position < span.at
        invariant begin <= position
        invariant FillDomains(domainBuckets, span, usage, order, position) ==
                  FillDomains(old(domainBuckets), span, usage, order, begin)
        invariant FillSampling(sampling, span, begin, clipped, position) ==
                  FillSampling(old(sampling), span, begin, clipped, begin)
        decreases span.at - position
      {
        SliceAdvances(position, span.at);
        BookSlice(span, usage, order, position);
        SampleSlice(span, begin, clipped, position);
        position := SliceEnd(position, span.at);
      }
    }

    /** The usage dictionary of a snapshot. */
    method Collect(conns: seq<Connection>, span: Span) returns (usage: Usage)
      ensures usage == if span.reset then map[] else Tally(domainCursor, conns, span.oldAt, span.at, |conns|)
    {
      usage := map[];
      if !span.reset {
        for i := 0 to |conns|
          invariant usage == Tally(domainCursor, conns, span.oldAt, span.at, i)
        {
          usage := Upsert(usage, conns[i].domain, Credit(domainCursor, conns[i], span.oldAt, span.at));
        }
      }
    }

    method RecordDomains(s: Sample)
      requires s.connections.Some? && ValidCounters(s.bytes) && ValidTimes(Contents())
      modifies this`domainBuckets, this`sampling, this`domainCursor, this`domainState
      ensures Contents() == Database.RecordDomains(old(Contents()), s)
    {
      if domainState.Some? && s.at <= domainState.value.at {
        return;
      }
      var conns := s.connections.value;
      var started := s.at;
      if domainState.Some? {
        var prev := domainState.value;
        started := prev.started;
        var span := Between(prev.at, prev.bytes, prev.epoch, s.at, s.bytes, s.epoch, s.interval);
        var raw := Collect(conns, span);
        var usage, clipped := CapUsage(raw, span.delta);
        NamesTotal();
        var order := Sort(usage.Keys, NameLeq);
        assert order == SortedNames(usage.Keys);
        FillAttribution(span, usage, order, clipped);
      }
      var listed: map<string, Checkpoint> := map[];
      for i := 0 to |conns|
        invariant listed == Checkpoints(conns, i)
      {
        listed := listed[conns[i].key := Checkpoint(conns[i].domain, conns[i].bytes)];
      }
      domainCursor := listed;
      domainState := Some(DomainState(s.at, s.bytes, s.epoch, started));
    }

    /** `Store.record`: a refused sample leaves every table as it was. */
    method Record(s: Sample) returns (outcome: Outcome)
      requires ValidTimes(Contents())
      modifies this
      ensures outcome == OutcomeOf(old(Contents()), s)
      ensures Contents() == Database.Record(old(Contents()), s)
    {
      if !ValidCounters(s.bytes) {
        return InvalidCounter;
      }
      outcome := Baseline;
      if cursor.Some? {
        var prev := cursor.value;
        if prev.source != s.source {
          return SourceChanged;
        }
        if s.at <= prev.at {
          return ClockNotAdvanced;
        }
        var span := Between(prev.at, prev.bytes, prev.epoch, s.at, s.bytes, s.epoch, s.interval);
        outcome := if span.reset then Reset else if span.estimated then Gap else Ok;
        FillBuckets(span);
      }
      if s.connections.Some? {
        RecordDomains(s);
      }
      cursor := Some(Cursor(s.at, s.bytes, s.epoch, s.source));
      assert Contents() == Apply(old(Contents()), s);
      Prune(s.at);
    }

    /** Books the rows of a batch that are not older than the boundary. */
    method BookRows(rows: seq<BatchRow>, cut: int) returns (total: Bytes)
      modifies this`buckets, this`domainBuckets
      ensures Tables(buckets, domainBuckets, total) ==
              ImportRows(Tables(old(buckets), old(domainBuckets), Bytes(0, 0)), rows, cut, |rows|)
    {
      total := Bytes(0, 0);
      for i := 0 to |rows|
        invariant Tables(buckets, domainBuckets, total) ==
                  ImportRows(Tables(old(buckets), old(domainBuckets), Bytes(0, 0)), rows, cut, i)
      {
        var row := rows[i];
        if row.start >= cut {
          total := Bytes(total.up + row.bytes.up, total.down + row.bytes.down);
          domainBuckets := Upsert(domainBuckets, Key(row.start, row.domain), row.bytes);
          buckets := AddRow(buckets, row.start, Row(row.bytes, 0, 0, 0));
        }
      }
    }

    /** Adds the seconds a batch covers to both tables. */
    method CoverInterval(b: Batch)
      requires 0 <= b.to
      modifies this`buckets, this`sampling
      ensures var span := CoverageSpan(b);
              && buckets == Fill(old(buckets), span, span.Begin(), span.Begin())
              && sampling == FillSampling(old(sampling), span, span.Begin(), Bytes(0, 0), span.Begin())
    {
      ghost var span := CoverageSpan(b);
      var begin := Max(b.from, Cutoff(b.to));
      var position := begin;
      while position < b.to
        invariant begin <= position
        invariant Fill(buckets, span, begin, position) == Fill(old(buckets), span, begin, begin)
        invariant FillSampling(sampling, span, begin, Bytes(0, 0), position) ==
                  FillSampling(old(sampling), span, begin, Bytes(0, 0), begin)
        decreases b.to - position
      {
        SliceAdvances(position, b.to);
        var start := BucketOf(position);
        var stop := SliceEnd(position, b.to);
        var seconds := stop - position;
        assert span.RowFor(begin, position) == Row(Bytes(0, 0), seconds, 0, 0);
        assert span.SamplingFor(begin, position, Bytes(0, 0)) == Sampling(seconds, 0, 0, Bytes(0, 0));
        buckets := AddRow(buckets, start, Row(Bytes(0, 0), seconds, 0, 0));
        sampling := AddSampling(sampling, start, Sampling(seconds, 0, 0, Bytes(0, 0)));
        position := stop;
      }
    }

    /** The checks on a batch's place: its number, its start, and the end of what is already covered. */
    method Classify(b: Batch) returns (outcome: Imported)
      ensures outcome == ImportOutcome(Contents(), b)
    {
      var known := b.epoch in epochs;
      if known && b.sequence <= epochs[b.epoch].sequence {
        if b.sequence == epochs[b.epoch].sequence && b != epochs[b.epoch].digest {
          return Conflict;
        }
        return Duplicate;
      }
      var next := if known then epochs[b.epoch].sequence + 1 else 1;
      if b.sequence != next || (known && b.from != epochs[b.epoch].at) {
        return Gapped;
      }
      if !known && cursor.Some? && b.from < cursor.value.at {
        return Overlapping;
      }
      return Committed;
    }

    /** Moves the cursors past a batch and remembers it as its epoch's last. */
    method Acknowledge(b: Batch, total: Bytes)
      modifies this`epochs, this`cursor, this`domainState, this`domainCursor
      ensures epochs == old(epochs)[b.epoch := EpochRow(b.sequence, b, b.to, TailLoss(old(Contents()), b))]
      ensures cursor == Some(Cursor(b.to, Cumulated(old(cursor), total), b.epoch, KERNEL_SOURCE))
      ensures domainState == Some(DomainState(b.to, Cumulated(old(cursor), total), b.epoch,
                                              if old(domainState).Some? then old(domainState).value.started
                                              else b.from))
      ensures domainCursor == map[]
    {
      var loss := b.unclean || (b.epoch in epochs && epochs[b.epoch].tailLoss);
      epochs := epochs[b.epoch := EpochRow(b.sequence, b, b.to, loss)];
      var counted := if cursor.Some? then cursor.value.bytes else Bytes(0, 0);
      var bytes := Bytes(counted.up + total.up, counted.down + total.down);
      cursor := Some(Cursor(b.to, bytes, b.epoch, KERNEL_SOURCE));
      var started := if domainState.Some? then domainState.value.started else b.from;
      domainState := Some(DomainState(b.to, bytes, b.epoch, started));
      domainCursor := map[];
    }

    /** `Store.import_batch`: duplicates and errors leave every table as it was. */
    method ImportBatch(b: Batch) returns (outcome: Imported)
      requires 0 <= b.to
      modifies this
      ensures outcome == ImportOutcome(old(Contents()), b)
      ensures Contents() == Import(old(Contents()), b)
    {
      outcome := Classify(b);
      if !outcome.Committed? {
        return;
      }
      ghost var before := Contents();
      if kernelStarted.None? {
        kernelStarted := Some(b.from);
      }
      var total := BookRows(b.rows, Cutoff(b.to));
      CoverInterval(b);
      Acknowledge(b, total);
      assert Contents() == ApplyBatch(before, b);
      Prune(b.to);
    }
  }
}
