/** How far a domain's booked bytes can be from the usage attributed to it. */
module Rounding {
  import opened Sums
  import opened Allocation
  import opened Ordering
  import opened Database
  import opened Attribution

  ghost function OfDomain(domain: string): Key -> bool { (k: Key) => k.domain == domain }

  /** The bytes of one domain over all buckets. */
  ghost function DomainTotal(t: map<Key, Bytes>, domain: string, dir: Direction): int {
    Sum(Where(t, OfDomain(domain)), dir)
  }

  /** The budgets of the slices of a span, one per bucket it reaches into. */
  function Budgets(span: Span, dir: Direction, position: int): (budgets: seq<int>)
    requires span.oldAt <= position
    decreases span.at - position
  {
    if position >= span.at then []
    else
      SliceAdvances(position, span.at);
      var end := SliceEnd(position, span.at);
      [span.Share(span.delta, position, end).Of(dir)] + Budgets(span, dir, end)
  }

  lemma {:induction false} PrefixFront(vals: seq<int>, n: nat)
    requires 0 < n <= |vals|
    ensures Prefix(vals, n) == vals[0] + Prefix(vals[1..], n - 1)
  {
    if n > 1 {
      PrefixFront(vals, n - 1);
    }
  }

  lemma {:induction false} ReceivedFront(budgets: seq<int>, total: int, consumed: int, value: int, n: nat)
    requires 0 < n <= |budgets|
    ensures Received(budgets, total, consumed, value, n) ==
            Portion(budgets[0], total, consumed, value) + Received(budgets[1..], total, consumed, value, n - 1)
  {
    if n > 1 {
      ReceivedFront(budgets, total, consumed, value, n - 1);
    }
  }

  /** The slices share out everything after the position. */
  lemma {:induction false} BudgetsTotal(span: Span, dir: Direction, position: int)
    requires span.oldAt <= position <= span.at && span.oldAt < span.at
    ensures Total(Budgets(span, dir, position)) == span.Share(span.delta, position, span.at).Of(dir)
    decreases span.at - position
  {
    if position < span.at {
      SliceAdvances(position, span.at);
      var end := SliceEnd(position, span.at);
      BudgetsTotal(span, dir, end);
      var budgets := Budgets(span, dir, position);
      PrefixFront(budgets, |budgets|);
      assert budgets[1..] == Budgets(span, dir, end);
      ShareAdjacent(span.delta.Of(dir), position - span.oldAt, end - span.oldAt, span.at - span.oldAt,
                    span.at - span.oldAt);
    }
  }

  /** A slice adds one piece to a domain of the order and nothing to others. */
  lemma {:induction false} DealDomain(t: map<Key, Bytes>, bucket: int, order: seq<string>, pieces: seq<Bytes>, n: nat,
                                      i: nat, dir: Direction)
    requires n <= |order| == |pieces| && i < |order| && Distinct(order)
    ensures DomainTotal(Deal(t, bucket, order, pieces, n), order[i], dir) ==
            DomainTotal(t, order[i], dir) + (if i < n then pieces[i].Of(dir) else 0)
  {
    if n > 0 {
      DealDomain(t, bucket, order, pieces, n - 1, i, dir);
      SumUpsertWhere(Deal(t, bucket, order, pieces, n - 1), dir, Key(bucket, order[n - 1]), pieces[n - 1],
                     OfDomain(order[i]));
    }
  }

  lemma SliceDomain(t: map<Key, Bytes>, span: Span, usage: Usage, order: seq<string>, position: int, i: nat,
                    dir: Direction)
    requires span.oldAt <= position < span.at && i < |order| && Distinct(order)
    ensures var vals := Column(usage, order, dir);
            var budget := span.Share(span.delta, position, SliceEnd(position, span.at)).Of(dir);
            DomainTotal(DealSlice(t, span, usage, order, position), order[i], dir) ==
            DomainTotal(t, order[i], dir) + Portion(budget, span.delta.Of(dir), Prefix(vals, i), vals[i])
  {
    var budget := span.Share(span.delta, position, SliceEnd(position, span.at));
    var pieces := Pieces(budget, span.delta, usage, order);
    DealDomain(t, BucketOf(position), order, pieces, |order|, i, dir);
    assert pieces[i].Of(dir) ==
           Apportion(budget.Of(dir), span.delta.Of(dir), Column(usage, order, dir))[i];
  }

  /** Over all slices a domain receives its portion of every budget. */
  lemma {:induction false} FillDomain(t: map<Key, Bytes>, span: Span, usage: Usage, order: seq<string>, position: int,
                                      i: nat, dir: Direction)
    requires span.oldAt <= position && i < |order| && Distinct(order)
    ensures var vals := Column(usage, order, dir);
            var budgets := Budgets(span, dir, position);
            DomainTotal(FillDomains(t, span, usage, order, position), order[i], dir) ==
            DomainTotal(t, order[i], dir) +
            Received(budgets, span.delta.Of(dir), Prefix(vals, i), vals[i], |budgets|)
    decreases span.at - position
  {
    if position < span.at {
      SliceAdvances(position, span.at);
      var vals := Column(usage, order, dir);
      var budgets := Budgets(span, dir, position);
      var end := SliceEnd(position, span.at);
      SliceDomain(t, span, usage, order, position, i, dir);
      FillDomain(DealSlice(t, span, usage, order, position), span, usage, order, end, i, dir);
      assert budgets[1..] == Budgets(span, dir, end);
      ReceivedFront(budgets, span.delta.Of(dir), Prefix(vals, i), vals[i], |budgets|);
    }
  }

  /**
   Spread over k buckets with nothing before the retention boundary, a domain receives its usage to
   within less than k bytes in each direction, hence exactly its usage when one bucket takes it all.
   */
  lemma DomainRounding(t: map<Key, Bytes>, span: Span, usage: Usage, domain: string, dir: Direction)
    requires span.oldAt < span.at && 0 <= span.at && span.Begin() == span.oldAt
    requires domain in usage && 0 <= span.delta.Of(dir) && UsageTotal(usage, dir) == span.delta.Of(dir)
    requires span.delta.Of(dir) == 0 ==> AllNonNegative(usage)
    ensures var buckets := |Budgets(span, dir, span.oldAt)|;
            var got := DomainTotal(FillDomains(t, span, usage, SortedNames(usage.Keys), span.Begin()), domain, dir) -
                       DomainTotal(t, domain, dir);
            && usage[domain].Of(dir) - buckets < got < usage[domain].Of(dir) + buckets
            && (buckets == 1 ==> got == usage[domain].Of(dir))
  {
    var order := SortedNames(usage.Keys);
    assert domain in order;
    var i :| 0 <= i < |order| && order[i] == domain;
    var vals := Column(usage, order, dir);
    FillDomain(t, span, usage, order, span.oldAt, i, dir);
    SpanBudgets(span, dir);
    if span.delta.Of(dir) == 0 {
      ColumnNonNegative(usage, dir);
      NoShare(vals, i);
      NothingReceived(Budgets(span, dir, span.oldAt), Prefix(vals, i), vals[i], |Budgets(span, dir, span.oldAt)|);
    } else {
      ReceivedRounding(Budgets(span, dir, span.oldAt), span.delta.Of(dir), Prefix(vals, i), vals[i]);
    }
  }

  /** Values that add up to nothing are all zero. */
  lemma NoShare(vals: seq<int>, i: nat)
    requires NonNegative(vals) && Total(vals) == 0 && i < |vals|
    ensures vals[i] == 0
  {
    PrefixNonNegative(vals, i);
    PrefixNonNegative(vals, i + 1);
  }

  lemma {:induction false} NothingReceived(budgets: seq<int>, consumed: int, value: int, n: nat)
    requires n <= |budgets|
    ensures Received(budgets, 0, consumed, value, n) == 0
  {
    if n > 0 {
      NothingReceived(budgets, consumed, value, n - 1);
    }
  }

  lemma SpanBudgets(span: Span, dir: Direction)
    requires span.oldAt < span.at
    ensures 0 < |Budgets(span, dir, span.oldAt)|
    ensures Total(Budgets(span, dir, span.oldAt)) == span.delta.Of(dir)
  {
    BudgetsTotal(span, dir, span.oldAt);
    ShareWhole(span.delta.Of(dir), span.at - span.oldAt);
  }
}
