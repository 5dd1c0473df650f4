/** An append-only partition of a storage table, read back through its smallest row key. */
module HistoryStore {
  import opened Numerals
  import opened RowKeys
  import opened Wrappers

  /** A stored row: its `timestamp_ms` column and everything else. */
  datatype Row<+D> = Row(ts: u64, data: D)

  type Partition<D> = map<string, Row<D>>

  ghost predicate Grew<D>(before: Partition<D>, after: Partition<D>) {
    forall k :: k in before ==> k in after && after[k] == before[k]
  }

  predicate IsSmallest(keys: set<string>, key: string) {
    key in keys && forall k :: k in keys ==> k == key || LexLess(key, k)
  }

  lemma {:induction false} SmallestExists(keys: set<string>) returns (key: string)
    requires keys != {}
    ensures IsSmallest(keys, key)
    decreases keys
  {
    key :| key in keys;
    if keys != {key} {
      var other := SmallestExists(keys - {key});
      LexTotal(key, other);
      if LexLess(key, other) {
        forall k | k in keys && k != key ensures LexLess(key, k) {
          if k != other { LexTransitive(key, other, k); }
        }
      } else {
        key := other;
      }
    }
  }

  lemma SmallestUnique(keys: set<string>, a: string, b: string)
    requires IsSmallest(keys, a) && IsSmallest(keys, b)
    ensures a == b
  {
    LexTotal(a, b);
  }

  /** The row a `top(1)` query of the partition returns. */
  ghost function LatestKey<D>(t: Partition<D>): (key: string)
    requires t != map[]
    ensures IsSmallest(t.Keys, key)
  {
    assert exists k :: IsSmallest(t.Keys, k) by {
      assert t.Keys != {} by { var k :| k in t; }
      var k := SmallestExists(t.Keys);
    }
    var key :| IsSmallest(t.Keys, key);
    key
  }

  ghost function Latest<D>(t: Partition<D>): Option<Row<D>> {
    if t == map[] then None else Some(t[LatestKey(t)])
  }

  /** `k` was formatted by `next_history_row_key` (or `desiredRowKey`) for timestamp `ts`. */
  ghost predicate KeyFor(k: string, ts: u64) {
    exists p: KeyParts :: k == RowKey(p) && p.ts == ts
  }

  ghost predicate TimeKeyed<D>(t: Partition<D>) {
    forall k :: k in t ==> KeyFor(k, t[k].ts)
  }

  /** A smaller formatted key never carries an older timestamp. */
  lemma SmallerIsNotOlder(a: string, ta: u64, b: string, tb: u64)
    requires KeyFor(a, ta) && KeyFor(b, tb) && LexLess(a, b)
    ensures ta >= tb
  {
    var p: KeyParts :| a == RowKey(p) && p.ts == ta;
    var q: KeyParts :| b == RowKey(q) && q.ts == tb;
    RowKeyOrder(p, q);
  }

  /** The row behind the smallest key has the greatest timestamp of the partition. */
  lemma LatestIsNewest<D>(t: Partition<D>)
    requires t != map[] && TimeKeyed(t)
    ensures forall k :: k in t ==> t[k].ts <= t[LatestKey(t)].ts
  {
    var key := LatestKey(t);
    forall k | k in t ensures t[k].ts <= t[key].ts {
      if k != key { SmallerIsNotOlder(key, t[key].ts, k, t[k].ts); }
    }
  }

  /** Appending rows can only move the smallest key down. */
  lemma LatestOnlyMovesDown<D>(before: Partition<D>, after: Partition<D>)
    requires before != map[] && Grew(before, after)
    ensures after != map[]
    ensures LatestKey(after) == LatestKey(before) || LexLess(LatestKey(after), LatestKey(before))
  {
    var k := LatestKey(before);
    assert k in before && k in after;
  }
}
