/** Grouping with a count, as the aggregation pipelines do it
    (`$group: {_id: key, count: {$sum: 1}}`): a list of buckets, one per
    distinct key, each holding how many inputs had that key. */
module Tally {

  datatype Bucket<K> = Bucket(key: K, count: nat)

  /** How many elements of `ks` equal `k`. */
  function Occ<K(==)>(ks: seq<K>, k: K): nat
    decreases |ks|
  {
    if |ks| == 0 then 0 else Occ(ks[..|ks| - 1], k) + (if ks[|ks| - 1] == k then 1 else 0)
  }

  /** How many elements of `ks` satisfy `p`. */
  function OccWhere<K>(ks: seq<K>, p: K -> bool): nat
    decreases |ks|
  {
    if |ks| == 0 then 0 else OccWhere(ks[..|ks| - 1], p) + (if p(ks[|ks| - 1]) then 1 else 0)
  }

  /** The sum of all bucket counts. */
  function Sum<K>(t: seq<Bucket<K>>): nat {
    if |t| == 0 then 0 else t[0].count + Sum(t[1..])
  }

  /** The sum of the counts of the buckets whose key satisfies `p`. */
  function SumWhere<K>(t: seq<Bucket<K>>, p: K -> bool): nat {
    if |t| == 0 then 0 else (if p(t[0].key) then t[0].count else 0) + SumWhere(t[1..], p)
  }

  /** The count the buckets hold for key `k`. */
  function CountOf<K(==)>(t: seq<Bucket<K>>, k: K): nat {
    if |t| == 0 then 0 else (if t[0].key == k then t[0].count else 0) + CountOf(t[1..], k)
  }

  function Keys<K>(t: seq<Bucket<K>>): set<K> {
    set i | 0 <= i < |t| :: t[i].key
  }

  /** No two buckets share a key. */
  ghost predicate DistinctKeys<K>(t: seq<Bucket<K>>) {
    forall i, j :: 0 <= i < j < |t| ==> t[i].key != t[j].key
  }

  /** No bucket is empty: only keys that occur are listed. */
  ghost predicate Positive<K>(t: seq<Bucket<K>>) {
    forall i :: 0 <= i < |t| ==> t[i].count >= 1
  }

  /** Keys strictly increase along the list. */
  ghost predicate Ascending(t: seq<Bucket<int>>) {
    forall i, j :: 0 <= i < j < |t| ==> t[i].key < t[j].key
  }

  /** Count one more `k`: raise its bucket, or open one at the end. */
  function Bump<K(==)>(t: seq<Bucket<K>>, k: K): seq<Bucket<K>> {
    if |t| == 0 then [Bucket(k, 1)]
    else if t[0].key == k then [Bucket(k, t[0].count + 1)] + t[1..]
    else [t[0]] + Bump(t[1..], k)
  }

  /** `Bump` adds `k` to the keys and no other key. */
  lemma {:induction false} BumpKeys<K>(t: seq<Bucket<K>>, k: K)
    ensures Keys(Bump(t, k)) == Keys(t) + {k}
  {
    if |t| == 0 {
      KeysCons(Bucket(k, 1), t);
      assert [Bucket(k, 1)] + t == [Bucket(k, 1)];
    } else {
      assert t == [t[0]] + t[1..];
      KeysCons(t[0], t[1..]);
      if t[0].key == k {
        KeysCons(Bucket(k, t[0].count + 1), t[1..]);
      } else {
        BumpKeys(t[1..], k);
        KeysCons(t[0], Bump(t[1..], k));
      }
    }
  }

  /** `Bump` keeps keys distinct. */
  lemma {:induction false} BumpDistinct<K>(t: seq<Bucket<K>>, k: K)
    requires DistinctKeys(t)
    ensures DistinctKeys(Bump(t, k))
  {
    if |t| > 0 && t[0].key != k {
      var rest := Bump(t[1..], k);
      BumpDistinct(t[1..], k);
      BumpKeys(t[1..], k);
      forall i | 0 <= i < |t[1..]| ensures t[1..][i].key != t[0].key {
        assert t[1..][i] == t[i + 1];
      }
      forall i, j | 0 <= i < j < |[t[0]] + rest| ensures ([t[0]] + rest)[i].key != ([t[0]] + rest)[j].key {
        if i == 0 {
          assert ([t[0]] + rest)[j].key == rest[j - 1].key;
          assert rest[j - 1].key in Keys(rest);
        }
      }
    }
  }

  /** `Bump` opens no empty bucket. */
  lemma {:induction false} BumpPositive<K>(t: seq<Bucket<K>>, k: K)
    requires Positive(t)
    ensures Positive(Bump(t, k))
  {
    if |t| > 0 && t[0].key != k {
      BumpPositive(t[1..], k);
    }
  }

  /** `Bump` adds one to the count of `k` and leaves every other count alone. */
  lemma {:induction false} BumpCountOf<K>(t: seq<Bucket<K>>, k: K, j: K)
    ensures CountOf(Bump(t, k), j) == CountOf(t, j) + (if j == k then 1 else 0)
  {
    if |t| == 0 {
    } else if t[0].key == k {
      assert ([Bucket(k, t[0].count + 1)] + t[1..])[1..] == t[1..];
    } else {
      BumpCountOf(t[1..], k, j);
      assert ([t[0]] + Bump(t[1..], k))[1..] == Bump(t[1..], k);
    }
  }

  /** `Bump` adds one to the total of every key class that holds `k`
      (the total of all counts is the class of every key). */
  lemma {:induction false} BumpSumWhere<K>(t: seq<Bucket<K>>, k: K, p: K -> bool)
    ensures SumWhere(Bump(t, k), p) == SumWhere(t, p) + (if p(k) then 1 else 0)
  {
    if |t| == 0 {
    } else if t[0].key == k {
      assert ([Bucket(k, t[0].count + 1)] + t[1..])[1..] == t[1..];
    } else {
      BumpSumWhere(t[1..], k, p);
      assert ([t[0]] + Bump(t[1..], k))[1..] == Bump(t[1..], k);
    }
  }

  /** `Bump` adds one to the total. */
  lemma {:induction false} BumpSum<K>(t: seq<Bucket<K>>, k: K)
    ensures Sum(Bump(t, k)) == Sum(t) + 1
  {
    if |t| == 0 {
    } else if t[0].key == k {
      assert ([Bucket(k, t[0].count + 1)] + t[1..])[1..] == t[1..];
    } else {
      BumpSum(t[1..], k);
      assert ([t[0]] + Bump(t[1..], k))[1..] == Bump(t[1..], k);
    }
  }

  /** Group `ks` by value, buckets in order of first appearance. */
  function GroupCount<K(==,!new)>(ks: seq<K>): (t: seq<Bucket<K>>)
    ensures DistinctKeys(t) && Positive(t)
    ensures Sum(t) == |ks|
    ensures forall k :: CountOf(t, k) == Occ(ks, k)
    ensures forall k :: k in Keys(t) <==> k in ks
    decreases |ks|
  {
    if |ks| == 0 then []
    else
      var init := ks[..|ks| - 1];
      var last := ks[|ks| - 1];
      var t0 := GroupCount(init);
      BumpKeys(t0, last);
      BumpDistinct(t0, last);
      BumpPositive(t0, last);
      BumpSum(t0, last);
      assert forall j :: CountOf(Bump(t0, last), j) == CountOf(t0, j) + (if j == last then 1 else 0) by {
        forall j { BumpCountOf(t0, last, j); }
      }
      assert ks == init + [last];
      Bump(t0, last)
  }

  /** Read through any key class, the groups count exactly the inputs in it. */
  lemma {:induction false} GroupCountSumWhere<K(!new)>(ks: seq<K>, p: K -> bool)
    ensures SumWhere(GroupCount(ks), p) == OccWhere(ks, p)
    decreases |ks|
  {
    if |ks| > 0 {
      var init := ks[..|ks| - 1];
      GroupCountSumWhere(init, p);
      BumpSumWhere(GroupCount(init), ks[|ks| - 1], p);
    }
  }

  /** Count one more `k` in an ascending list: raise its bucket, or open one
      where it belongs. */
  function BumpSorted(t: seq<Bucket<int>>, k: int): seq<Bucket<int>> {
    if |t| == 0 then [Bucket(k, 1)]
    else if t[0].key == k then [Bucket(k, t[0].count + 1)] + t[1..]
    else if k < t[0].key then [Bucket(k, 1)] + t
    else [t[0]] + BumpSorted(t[1..], k)
  }

  /** `BumpSorted` adds `k` to the keys and no other key. */
  lemma {:induction false} BumpSortedKeys(t: seq<Bucket<int>>, k: int)
    ensures Keys(BumpSorted(t, k)) == Keys(t) + {k}
  {
    if |t| == 0 {
      KeysCons(Bucket(k, 1), t);
      assert [Bucket(k, 1)] + t == [Bucket(k, 1)];
    } else {
      assert t == [t[0]] + t[1..];
      KeysCons(t[0], t[1..]);
      if t[0].key == k {
        KeysCons(Bucket(k, t[0].count + 1), t[1..]);
      } else if k < t[0].key {
        KeysCons(Bucket(k, 1), t);
      } else {
        BumpSortedKeys(t[1..], k);
        KeysCons(t[0], BumpSorted(t[1..], k));
      }
    }
  }

  /** `BumpSorted` keeps the list ascending. */
  lemma {:induction false} BumpSortedAscending(t: seq<Bucket<int>>, k: int)
    requires Ascending(t)
    ensures Ascending(BumpSorted(t, k))
  {
    if |t| > 0 && k > t[0].key {
      var rest := BumpSorted(t[1..], k);
      BumpSortedAscending(t[1..], k);
      BumpSortedKeys(t[1..], k);
      forall j | 0 <= j < |rest| ensures t[0].key < rest[j].key {
        assert rest[j].key in Keys(rest);
        if rest[j].key != k {
          var i :| 0 <= i < |t[1..]| && t[1..][i].key == rest[j].key;
          assert t[i + 1].key == rest[j].key;
        }
      }
    }
  }

  /** `BumpSorted` opens no empty bucket. */
  lemma {:induction false} BumpSortedPositive(t: seq<Bucket<int>>, k: int)
    requires Positive(t)
    ensures Positive(BumpSorted(t, k))
  {
    if |t| > 0 && k > t[0].key {
      BumpSortedPositive(t[1..], k);
    }
  }

  /** `BumpSorted` adds one to the count of `k` and to the total. */
  lemma {:induction false} BumpSortedCounts(t: seq<Bucket<int>>, k: int, j: int)
    ensures CountOf(BumpSorted(t, k), j) == CountOf(t, j) + (if j == k then 1 else 0)
    ensures Sum(BumpSorted(t, k)) == Sum(t) + 1
  {
    if |t| == 0 {
    } else if t[0].key == k {
      assert ([Bucket(k, t[0].count + 1)] + t[1..])[1..] == t[1..];
    } else if k < t[0].key {
      assert ([Bucket(k, 1)] + t)[1..] == t;
    } else {
      BumpSortedCounts(t[1..], k, j);
      assert ([t[0]] + BumpSorted(t[1..], k))[1..] == BumpSorted(t[1..], k);
    }
  }

  /** Group `ks` by value, buckets in ascending key order. */
  function GroupCountSorted(ks: seq<int>): (t: seq<Bucket<int>>)
    ensures Ascending(t) && Positive(t)
    ensures Sum(t) == |ks|
    ensures forall k :: CountOf(t, k) == Occ(ks, k)
    ensures forall k :: k in Keys(t) <==> k in ks
    decreases |ks|
  {
    if |ks| == 0 then []
    else
      var init := ks[..|ks| - 1];
      var last := ks[|ks| - 1];
      var t0 := GroupCountSorted(init);
      BumpSortedKeys(t0, last);
      BumpSortedAscending(t0, last);
      BumpSortedPositive(t0, last);
      assert forall j :: CountOf(BumpSorted(t0, last), j) == CountOf(t0, j) + (if j == last then 1 else 0)
                         && Sum(BumpSorted(t0, last)) == Sum(t0) + 1 by {
        forall j { BumpSortedCounts(t0, last, j); }
        BumpSortedCounts(t0, last, last);
      }
      assert ks == init + [last];
      BumpSorted(t0, last)
  }

  /** With distinct keys, a bucket's count is the count for its key. */
  lemma {:induction false} CountOfBucket<K>(t: seq<Bucket<K>>, i: nat)
    requires DistinctKeys(t) && i < |t|
    ensures CountOf(t, t[i].key) == t[i].count
  {
    if i == 0 {
      CountOfAbsent(t[1..], t[0].key);
    } else {
      CountOfBucket(t[1..], i - 1);
    }
  }

  /** A key with no bucket has count zero. */
  lemma {:induction false} CountOfAbsent<K>(t: seq<Bucket<K>>, k: K)
    requires forall i :: 0 <= i < |t| ==> t[i].key != k
    ensures CountOf(t, k) == 0
  {
    if |t| > 0 {
      CountOfAbsent(t[1..], k);
    }
  }

  /** The keys of a list with one more bucket in front. */
  lemma {:induction false} KeysCons<K>(b: Bucket<K>, t: seq<Bucket<K>>)
    ensures Keys([b] + t) == {b.key} + Keys(t)
  {
    var s := [b] + t;
    forall x | x in Keys(s) ensures x in {b.key} + Keys(t) {
      var i :| 0 <= i < |s| && s[i].key == x;
      if i > 0 {
        assert t[i - 1].key == x;
      }
    }
    forall x | x in Keys(t) ensures x in Keys(s) {
      var i :| 0 <= i < |t| && t[i].key == x;
      assert s[i + 1].key == x;
    }
    assert s[0].key == b.key;
  }
}
