/**
 The batches an honest engine leaves behind over all its restarts, in emission order, and what the
 collector makes of them: the order of a drain, the epoch table, and the answer to each import.
 */
module History {
  import opened Calendar
  import opened Ordering
  import opened Database
  import opened Journal
  import opened Coverage
  import opened Attribution

  /** The name of a spool file is made of the epoch and the sequence number. */
  datatype File = File(epoch: string, sequence: int)

  datatype SortKey = SortKey(from: int, emittedNs: int, file: File)

  function FileOf(b: Batch): File { File(b.epoch, b.sequence) }

  function SortKeyOf(b: Batch): SortKey { SortKey(b.from, b.emittedNs, FileOf(b)) }

  // ---- emission order ----

  /** A batch continues its epoch where the previous one ended, or opens an epoch never seen before. */
  ghost predicate Follows(h: seq<Batch>, i: nat)
    requires i < |h|
  {
    var b := h[i];
    if i > 0 && h[i - 1].epoch == b.epoch then b.sequence == h[i - 1].sequence + 1 && b.from == h[i - 1].to
    else b.sequence == 1 && (forall j :: 0 <= j < i ==> h[j].epoch != b.epoch) && (i > 0 ==> h[i - 1].to <= b.from)
  }

  /** An interval, an emission time and rows as the engine writes them, with one fallback row a bucket at most. */
  ghost predicate WellFormed(b: Batch) {
    && b.version == 1 && BatchInTime(b) && b.to == b.emittedNs / SECOND
    && RowsNonNegative(b) && RowsDistinct(b) && |b.rows| <= 10000 + BucketsIn(b.from, b.to)
  }

  ghost predicate HonestAt(h: seq<Batch>, i: nat)
    requires i < |h|
  {
    && WellFormed(h[i]) && Follows(h, i) && (i > 0 ==> h[i - 1].emittedNs < h[i].emittedNs)
  }

  /** Batches in the order one engine at a time emitted them. */
  ghost predicate Honest(h: seq<Batch>) {
    forall i :: 0 <= i < |h| ==> HonestAt(h, i)
  }

  lemma HonestPrefix(h: seq<Batch>, n: nat)
    requires Honest(h) && n <= |h|
    ensures Honest(h[..n])
  {
    forall i | 0 <= i < n ensures HonestAt(h[..n], i) {
      assert HonestAt(h, i);
    }
  }

  lemma HonestAppend(h: seq<Batch>, b: Batch)
    requires Honest(h) && HonestAt(h + [b], |h|)
    ensures Honest(h + [b])
  {
    forall i | 0 <= i < |h| ensures HonestAt(h + [b], i) {
      assert HonestAt(h, i);
    }
  }

  /** The batches of an epoch are consecutive and consecutively numbered. */
  lemma {:induction false} EpochConsecutive(h: seq<Batch>, i: nat, j: nat)
    requires Honest(h) && i < j < |h| && h[i].epoch == h[j].epoch
    ensures h[j - 1].epoch == h[j].epoch && h[j].sequence == h[i].sequence + (j - i)
    decreases j
  {
    assert HonestAt(h, j);
    if i < j - 1 {
      EpochConsecutive(h, i, j - 1);
    }
  }

  lemma {:induction false} EmittedLater(h: seq<Batch>, i: nat, j: nat)
    requires Honest(h) && i < j < |h|
    ensures h[i].to <= h[j].from && h[i].emittedNs < h[j].emittedNs
    decreases j
  {
    assert HonestAt(h, j) && HonestAt(h, j - 1);
    if i < j - 1 {
      EmittedLater(h, i, j - 1);
    }
  }

  lemma NamesUnique(h: seq<Batch>, i: nat, j: nat)
    requires Honest(h) && i < |h| && j < |h| && FileOf(h[i]) == FileOf(h[j])
    ensures i == j
  {
    if i < j {
      EpochConsecutive(h, i, j);
    } else if j < i {
      EpochConsecutive(h, j, i);
    }
  }

  // ---- the order of a drain ----

  predicate FileLeq(a: File, b: File) {
    if a.epoch == b.epoch then a.sequence <= b.sequence else NameLeq(a.epoch, b.epoch)
  }

  predicate SortKeyLeq(a: SortKey, b: SortKey) {
    a.from < b.from || (a.from == b.from &&
      (a.emittedNs < b.emittedNs || (a.emittedNs == b.emittedNs && FileLeq(a.file, b.file))))
  }

  lemma FilesTotal()
    ensures TotalOrder(FileLeq)
  {
    forall a: File, b: File ensures (FileLeq(a, b) || FileLeq(b, a)) && (FileLeq(a, b) && FileLeq(b, a) ==> a == b) {
      NameTotal(a.epoch, b.epoch);
    }
    forall a: File, b: File, c: File | FileLeq(a, b) && FileLeq(b, c) ensures FileLeq(a, c) {
      NameTotal(a.epoch, b.epoch);
      if a.epoch != b.epoch && b.epoch != c.epoch {
        NameTransitive(a.epoch, b.epoch, c.epoch);
      }
    }
  }

  lemma SortKeysTotal()
    ensures TotalOrder(SortKeyLeq)
  {
    FilesTotal();
    forall a: SortKey, b: SortKey
      ensures (SortKeyLeq(a, b) || SortKeyLeq(b, a)) && (SortKeyLeq(a, b) && SortKeyLeq(b, a) ==> a == b)
    {
      assert FileLeq(a.file, b.file) || FileLeq(b.file, a.file);
    }
    forall a: SortKey, b: SortKey, c: SortKey | SortKeyLeq(a, b) && SortKeyLeq(b, c) ensures SortKeyLeq(a, c) {
      assert FileLeq(a.file, b.file) && FileLeq(b.file, c.file) ==> FileLeq(a.file, c.file);
    }
  }

  ghost function SortedFiles(keys: set<SortKey>): (queue: seq<SortKey>)
    ensures Distinct(queue) && Increasing(queue, SortKeyLeq) && Elements(queue) == keys
  {
    SortKeysTotal();
    SortedLists(keys, SortKeyLeq);
    SortedIncreases(keys, SortKeyLeq);
    Sorted(keys, SortKeyLeq)
  }

  function KeysOf(h: seq<Batch>): (keys: seq<SortKey>)
    ensures |keys| == |h| && forall i :: 0 <= i < |h| ==> keys[i] == SortKeyOf(h[i])
  {
    seq(|h|, i requires 0 <= i < |h| => SortKeyOf(h[i]))
  }

  lemma KeysInOrder(h: seq<Batch>)
    requires Honest(h)
    ensures Distinct(KeysOf(h)) && Increasing(KeysOf(h), SortKeyLeq)
  {
    forall i, j | 0 <= i < j < |h|
      ensures KeysOf(h)[i] != KeysOf(h)[j] && SortKeyLeq(KeysOf(h)[i], KeysOf(h)[j])
    {
      EmittedLater(h, i, j);
      assert HonestAt(h, i);
    }
  }

  /**
   Sorting reproduces emission order: whatever already imported files are still or again in the spool, the
   files not yet imported come last and in the order in which they were emitted.
   */
  lemma SortingIsEmissionOrder(h: seq<Batch>, n: nat, keys: set<SortKey>)
    requires Honest(h) && n <= |h|
    requires Elements(KeysOf(h[n..])) <= keys <= Elements(KeysOf(h))
    ensures var queue := SortedFiles(keys);
            var d := |queue| - (|h| - n);
            && 0 <= d && queue[d..] == KeysOf(h[n..])
            && forall i :: 0 <= i < d ==> queue[i] in KeysOf(h[..n])
  {
    var late := KeysOf(h[n..]);
    var early := SortedFiles(keys - Elements(late));
    assert Elements(early) == keys - Elements(late);
    forall k | k in early ensures k in KeysOf(h[..n]) {
      assert k in Elements(early);
      assert k in Elements(KeysOf(h));
      EarlyOrLate(h, n, k);
      assert k !in Elements(late);
    }
    EarlyThenLate(h, n, early);
    var list := early + late;
    assert Elements(list) == Elements(early) + Elements(late);
    assert Elements(list) == keys;
    SortKeysTotal();
    SortedUnique(keys, SortKeyLeq, list);
    assert list[|early|..] == late;
  }

  lemma EarlyThenLate(h: seq<Batch>, n: nat, early: seq<SortKey>)
    requires Honest(h) && n <= |h| && Distinct(early) && Increasing(early, SortKeyLeq)
    requires forall k :: k in early ==> k in KeysOf(h[..n])
    ensures Distinct(early + KeysOf(h[n..])) && Increasing(early + KeysOf(h[n..]), SortKeyLeq)
  {
    var list := early + KeysOf(h[n..]);
    forall i, j | 0 <= i < j < |list| ensures list[i] != list[j] && SortKeyLeq(list[i], list[j]) {
      if j < |early| {
        assert list[i] == early[i] && list[j] == early[j];
      } else if i >= |early| {
        LateInOrder(h, n, i - |early|, j - |early|);
      } else {
        assert early[i] in early;
        EarlyBeforeLate(h, n, early[i], j - |early|);
      }
    }
  }

  lemma EarlyOrLate(h: seq<Batch>, n: nat, k: SortKey)
    requires n <= |h| && k in KeysOf(h)
    ensures k in KeysOf(h[..n]) || k in KeysOf(h[n..])
  {
    var i :| 0 <= i < |h| && KeysOf(h)[i] == k;
    if i < n {
      assert KeysOf(h[..n])[i] == k;
    } else {
      assert KeysOf(h[n..])[i - n] == k;
    }
  }

  lemma LateInOrder(h: seq<Batch>, n: nat, i: nat, j: nat)
    requires Honest(h) && n <= |h| && i < j < |h| - n
    ensures KeysOf(h[n..])[i] != KeysOf(h[n..])[j] && SortKeyLeq(KeysOf(h[n..])[i], KeysOf(h[n..])[j])
  {
    KeysInOrder(h);
    assert KeysOf(h[n..])[i] == KeysOf(h)[n + i] && KeysOf(h[n..])[j] == KeysOf(h)[n + j];
  }

  lemma EarlyBeforeLate(h: seq<Batch>, n: nat, k: SortKey, j: nat)
    requires Honest(h) && n <= |h| && j < |h| - n && k in KeysOf(h[..n])
    ensures k != KeysOf(h[n..])[j] && SortKeyLeq(k, KeysOf(h[n..])[j])
  {
    KeysInOrder(h);
    var i :| 0 <= i < n && KeysOf(h[..n])[i] == k;
    assert KeysOf(h)[i] == k && KeysOf(h[n..])[j] == KeysOf(h)[n + j];
  }

  // ---- the epoch table ----

  /** The epoch table after the first n batches. */
  function Epochs(h: seq<Batch>, n: nat): map<string, EpochRow>
    requires n <= |h|
  {
    if n == 0 then map[]
    else
      var before, b := Epochs(h, n - 1), h[n - 1];
      before[b.epoch := EpochRow(b.sequence, b, b.to,
                                 b.unclean || (b.epoch in before && before[b.epoch].tailLoss))]
  }

  lemma {:induction false} EpochsPrefix(h: seq<Batch>, g: seq<Batch>, n: nat)
    requires n <= |h| && n <= |g| && h[..n] == g[..n]
    ensures Epochs(h, n) == Epochs(g, n)
  {
    if n > 0 {
      assert h[n - 1] == h[..n][n - 1] && g[n - 1] == g[..n][n - 1];
      assert h[..n - 1] == h[..n][..n - 1] && g[..n - 1] == g[..n][..n - 1];
      EpochsPrefix(h, g, n - 1);
    }
  }

  /** The table holds each epoch's last batch. */
  lemma {:induction false} TableHoldsLast(h: seq<Batch>, n: nat, i: nat) returns (j: nat)
    requires Honest(h) && i < n <= |h|
    ensures i <= j < n && h[j].epoch == h[i].epoch && h[i].epoch in Epochs(h, n)
    ensures var row := Epochs(h, n)[h[i].epoch];
            row.sequence == h[j].sequence && row.digest == h[j] && row.at == h[j].to
    ensures forall k :: j < k < n ==> h[k].epoch != h[i].epoch
    decreases n
  {
    if h[n - 1].epoch == h[i].epoch {
      j := n - 1;
    } else {
      j := TableHoldsLast(h, n - 1, i);
    }
  }

  lemma {:induction false} TableKnowsOnly(h: seq<Batch>, n: nat, epoch: string)
    requires n <= |h| && forall i :: 0 <= i < n ==> h[i].epoch != epoch
    ensures epoch !in Epochs(h, n)
  {
    if n > 0 {
      TableKnowsOnly(h, n - 1, epoch);
    }
  }

  /** A batch that is in is never counted again. */
  lemma ImportedIsDuplicate(db: Db, h: seq<Batch>, n: nat, i: nat)
    requires Honest(h) && i < n <= |h| && db.epochs == Epochs(h, n)
    ensures ImportOutcome(db, h[i]).Duplicate?
  {
    var j := TableHoldsLast(h, n, i);
    if i < j {
      EpochConsecutive(h, i, j);
    }
  }

  /** The next batch never meets a gap, an overlap or a conflict. */
  lemma NextIsCommitted(db: Db, h: seq<Batch>, n: nat)
    requires Honest(h) && n < |h| && db.epochs == Epochs(h, n)
    requires db.cursor.Some? ==> db.cursor.value.at <= h[n].from
    ensures ImportOutcome(db, h[n]).Committed?
  {
    assert HonestAt(h, n);
    if n > 0 && h[n - 1].epoch == h[n].epoch {
      var j := TableHoldsLast(h, n, n - 1);
    } else {
      TableKnowsOnly(h, n, h[n].epoch);
    }
  }

  /** An epoch that reported a possible loss keeps doing so however many of its batches follow. */
  lemma {:induction false} TailLossStays(h: seq<Batch>, n: nat, i: nat)
    requires i < n <= |h| && h[i].unclean
    ensures h[i].epoch in Epochs(h, n) && Epochs(h, n)[h[i].epoch].tailLoss
    decreases n
  {
    if i < n - 1 {
      TailLossStays(h, n - 1, i);
    }
  }

  /** The first batch of the epoch a batch belongs to. */
  lemma {:induction false} FirstOfItsEpoch(h: seq<Batch>, i: nat) returns (j: nat)
    requires Honest(h) && i < |h|
    ensures j <= i && h[j].epoch == h[i].epoch && h[j].sequence == 1
    decreases i
  {
    assert HonestAt(h, i);
    if i > 0 && h[i - 1].epoch == h[i].epoch {
      j := FirstOfItsEpoch(h, i - 1);
    } else {
      j := i;
    }
  }

  lemma SequencePositive(h: seq<Batch>, i: nat)
    requires Honest(h) && i < |h|
    ensures 1 <= h[i].sequence
  {
    var j := FirstOfItsEpoch(h, i);
    if j < i {
      EpochConsecutive(h, j, i);
    }
  }

  /** The collector accepts an honest batch exactly when its size and the clocks allow it. */
  lemma HonestAccepted(h: seq<Batch>, i: nat, now: int)
    requires Honest(h) && i < |h| && HexEpoch(h[i].epoch) && FitsInt64(h[i])
    ensures BatchValid(h[i], now) <==> |h[i].rows| <= 10002 && h[i].to <= now + 5
  {
    var b := h[i];
    assert HonestAt(h, i);
    SequencePositive(h, i);
    EmissionTime(b.emittedNs);
    forall j | 0 <= j < |b.rows| ensures RowValid(b, b.rows[j]) {
      Floored(b.from);
      Floored(b.to);
      StartFits(b.emittedNs, b.rows[j].start);
    }
  }
}
