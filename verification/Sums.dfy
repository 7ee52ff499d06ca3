/** Byte counts in the two directions, and sums of them over tables. */
module Sums {

  datatype Direction = Upload | Download

  /** An upload/download pair. Every table of the traffic database stores bytes this way. */
  datatype Bytes = Bytes(up: int, down: int) {
    function Of(dir: Direction): int {
      if dir.Upload? then up else down
    }

    function With(dir: Direction, value: int): Bytes {
      if dir.Upload? then Bytes(value, down) else Bytes(up, value)
    }

    predicate NonNegative() {
      0 <= up && 0 <= down
    }
  }


  /** The value at a key, zero when the table has no such row. */
  function At<K>(m: map<K, Bytes>, k: K): Bytes {
    if k in m then m[k] else Bytes(0, 0)
  }

  /** `INSERT ... ON CONFLICT DO UPDATE SET x = x + excluded.x`. */
  function Upsert<K>(m: map<K, Bytes>, k: K, b: Bytes): map<K, Bytes> {
    var before := At(m, k);
    m[k := Bytes(before.up + b.up, before.down + b.down)]
  }

  /** The sum of a whole table in one direction. */
  ghost function Sum<K>(m: map<K, Bytes>, dir: Direction): int
    decreases |m|
  {
    if m == map[] then 0
    else
      var k :| k in m;
      m[k].Of(dir) + Sum(m - {k}, dir)
  }

  /** The rows whose key satisfies p. */
  ghost function Where<K>(m: map<K, Bytes>, p: K -> bool): map<K, Bytes> {
    map k | k in m && p(k) :: m[k]
  }

  /** Sum does not depend on the row that is taken out first. */
  lemma {:induction false} SumTake<K>(m: map<K, Bytes>, dir: Direction, k: K)
    requires k in m
    ensures Sum(m, dir) == m[k].Of(dir) + Sum(m - {k}, dir)
    decreases |m|
  {
    var j :| j in m && Sum(m, dir) == m[j].Of(dir) + Sum(m - {j}, dir);
    if j != k {
      SumTake(m - {j}, dir, k);
      SumTake(m - {k}, dir, j);
      assert m - {j} - {k} == m - {k} - {j};
    }
  }

  lemma SumUpsert<K>(m: map<K, Bytes>, dir: Direction, k: K, b: Bytes)
    ensures Sum(Upsert(m, k, b), dir) == Sum(m, dir) + b.Of(dir)
  {
    var u := Upsert(m, k, b);
    SumTake(u, dir, k);
    assert u - {k} == m - {k};
    if k in m {
      SumTake(m, dir, k);
    } else {
      assert m - {k} == m;
    }
  }

  lemma SumUpsertWhere<K>(m: map<K, Bytes>, dir: Direction, k: K, b: Bytes, p: K -> bool)
    ensures Sum(Where(Upsert(m, k, b), p), dir) == Sum(Where(m, p), dir) + (if p(k) then b.Of(dir) else 0)
  {
    var u := Upsert(m, k, b);
    if p(k) {
      assert Where(u, p) == Upsert(Where(m, p), k, b);
      SumUpsert(Where(m, p), dir, k, b);
    } else {
      assert Where(u, p) == Where(m, p);
    }
  }

  lemma SumTakeWhere<K>(m: map<K, Bytes>, dir: Direction, k: K, p: K -> bool)
    requires k in m
    ensures Sum(Where(m, p), dir) == Sum(Where(m - {k}, p), dir) + (if p(k) then m[k].Of(dir) else 0)
  {
    var rest := m - {k};
    assert Upsert(rest, k, m[k]) == m;
    SumUpsertWhere(rest, dir, k, m[k], p);
  }

  /** A table is the sum of what a filter keeps and what its complement keeps. */
  lemma {:induction false} SumSplit<K>(m: map<K, Bytes>, dir: Direction, p: K -> bool, q: K -> bool)
    requires forall k :: k in m ==> q(k) == !p(k)
    ensures Sum(m, dir) == Sum(Where(m, p), dir) + Sum(Where(m, q), dir)
    decreases |m|
  {
    if m == map[] {
      assert Where(m, p) == map[] && Where(m, q) == map[];
    } else {
      var k :| k in m;
      SumTake(m, dir, k);
      SumTakeWhere(m, dir, k, p);
      SumTakeWhere(m, dir, k, q);
      SumSplit(m - {k}, dir, p, q);
    }
  }

  lemma {:induction false} SumNonNegative<K>(m: map<K, Bytes>, dir: Direction)
    requires forall k :: k in m ==> m[k].NonNegative()
    ensures 0 <= Sum(m, dir)
    decreases |m|
  {
    if m != map[] {
      var k :| k in m;
      SumTake(m, dir, k);
      SumNonNegative(m - {k}, dir);
    }
  }
}
