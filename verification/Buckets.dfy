/** The 65536 two-byte buckets of mainSort: where each lies, what it holds. */
module Buckets {
  import opened Counting
  import opened Permutations
  import opened Rotations
  import opened QuickSort
  import opened MainQSort
  import opened PointerScan

  const KEYS := 65536

  function KeyAt(b: seq<byte>, x: int): (k: int)
    requires 0 <= x < |b|
    ensures 0 <= k < KEYS
  {
    256 * b[x] as int + b[Next(|b|, x)] as int
  }

  function Keys(b: seq<byte>): (s: seq<int>)
    ensures |s| == |b|
    ensures forall x :: 0 <= x < |b| ==> s[x] == KeyAt(b, x)
  {
    seq(|b|, x requires 0 <= x < |b| => KeyAt(b, x))
  }

  /** First place of bucket k; bucket k ends where the next one starts. */
  ghost function Start(b: seq<byte>, k: nat): nat {
    Smaller(Keys(b), k)
  }

  lemma StartMono(b: seq<byte>, j: nat, k: nat)
    requires j <= k <= KEYS
    ensures Start(b, j) <= Start(b, k) <= |b|
  {
    SmallerMono(Keys(b), j, k);
    SmallerMono(Keys(b), k, KEYS);
    SmallerTotal(Keys(b), KEYS);
  }

  lemma {:induction false} OccCard(b: seq<byte>, k: int, m: nat)
    requires m <= |b|
    ensures |set x | 0 <= x < m && KeyAt(b, x) == k| == Occ(Keys(b), k, m)
    decreases m
  {
    var s := set x | 0 <= x < m && KeyAt(b, x) == k;
    if m == 0 {
      assert s == {};
    } else {
      OccCard(b, k, m - 1);
      var t := set x | 0 <= x < m - 1 && KeyAt(b, x) == k;
      assert s == t + (if KeyAt(b, m - 1) == k then {m - 1} else {});
    }
  }

  /** A bucket is as long as it has members. */
  lemma MembersCount(b: seq<byte>, c: int, d: int)
    requires 0 <= c < 256 && 0 <= d < 256
    ensures |Members(b, c, d)| == Start(b, 256 * c + d + 1) - Start(b, 256 * c + d)
  {
    var k := 256 * c + d;
    OccCard(b, k, |b|);
    assert Members(b, c, d) == set x | 0 <= x < |b| && KeyAt(b, x) == k;
  }

  /** Every rotation is inside the bucket of its first two bytes. */
  ghost predicate InBuckets(b: seq<byte>, p: seq<int>) {
    && |p| == |b| && Injective(p)
    && forall i :: 0 <= i < |p| ==> 0 <= p[i] < |b| && Start(b, KeyAt(b, p[i])) <= i < Start(b, KeyAt(b, p[i]) + 1)
  }

  lemma BucketHolds(b: seq<byte>, p: seq<int>, k: nat, i: int)
    requires InBuckets(b, p) && k < KEYS && 0 <= i < |p|
    ensures Start(b, k) <= i < Start(b, k + 1) <==> KeyAt(b, p[i]) == k
  {
    var j := KeyAt(b, p[i]);
    if j < k { StartMono(b, j + 1, k); } else if k < j { StartMono(b, k + 1, j); }
  }

  /** Places in a run of buckets hold keys of that run. */
  lemma RunHolds(b: seq<byte>, p: seq<int>, j: nat, k: nat, i: int)
    requires InBuckets(b, p) && j <= k <= KEYS && 0 <= i < |p|
    ensures Start(b, j) <= i < Start(b, k) <==> j <= KeyAt(b, p[i]) < k
  {
    var m := KeyAt(b, p[i]);
    if m < j { StartMono(b, m + 1, j); } else { StartMono(b, j, m); }
    if m < k { StartMono(b, m + 1, k); } else { StartMono(b, k, m); }
  }

  ghost predicate BucketSorted(b: seq<byte>, rank: seq<int>, p: seq<int>, k: nat) {
    KeySorted(p, rank, Start(b, k), Start(b, k + 1) - 1)
  }

  /** The smaller key comes first. */
  lemma KeyOrder(b: seq<byte>, rank: seq<int>, x: int, y: int)
    requires |b| >= 2 && Ranked(b, rank) && 0 <= x < |b| && 0 <= y < |b| && KeyAt(b, x) < KeyAt(b, y)
    ensures KeyLe(rank, x, y)
  {
    SecondByte(b, x, y);
  }

  /** A run of sorted buckets is sorted. */
  lemma RunSorted(b: seq<byte>, rank: seq<int>, p: seq<int>, j: nat, k: nat)
    requires |b| >= 2 && Ranked(b, rank) && InBuckets(b, p) && j <= k <= KEYS
    requires forall m :: j <= m < k ==> BucketSorted(b, rank, p, m)
    ensures KeySorted(p, rank, Start(b, j), Start(b, k) - 1)
  {
    StartMono(b, j, k);
    forall x, y | Start(b, j) <= x < y <= Start(b, k) - 1
      ensures KeyLe(rank, p[x], p[y])
    {
      RunHolds(b, p, j, k, x);
      RunHolds(b, p, j, k, y);
      var m := KeyAt(b, p[x]);
      if m < KeyAt(b, p[y]) {
        KeyOrder(b, rank, p[x], p[y]);
      } else {
        SameBucketPair(b, p, x, y);
        assert BucketSorted(b, rank, p, m);
      }
    }
  }

  lemma SameBucketPair(b: seq<byte>, p: seq<int>, x: int, y: int)
    requires InBuckets(b, p) && 0 <= x < y < |p| && KeyAt(b, p[x]) >= KeyAt(b, p[y])
    ensures KeyAt(b, p[x]) == KeyAt(b, p[y])
  {
    if KeyAt(b, p[y]) < KeyAt(b, p[x]) { StartMono(b, KeyAt(b, p[y]) + 1, KeyAt(b, p[x])); }
  }

  /** All buckets sorted: all rotations sorted. */
  lemma AllSorted(b: seq<byte>, rank: seq<int>, p: seq<int>)
    requires |b| >= 2 && Ranked(b, rank) && InBuckets(b, p)
    requires forall m :: 0 <= m < KEYS ==> BucketSorted(b, rank, p, m)
    ensures RotationSorted(b, p)
  {
    RunSorted(b, rank, p, 0, KEYS);
    SmallerTotal(Keys(b), KEYS);
    forall x, y | 0 <= x < y < |p|
      ensures Cmp(b, p[x], p[y], |b|) <= 0
    {
      assert KeyLe(rank, p[x], p[y]);
      assert RotLe(b, p[x], p[y]) <==> rank[p[x]] <= rank[p[y]];
    }
  }

  /** Entries of one bucket agree on two bytes. */
  lemma BucketAgrees(b: seq<byte>, p: seq<int>, k: nat)
    requires |b| >= 2 && InBuckets(b, p) && k < KEYS
    ensures Agree(b, p, Start(b, k), Start(b, k + 1) - 1, 2)
  {
    StartMono(b, k + 1, KEYS);
    forall x, y | Start(b, k) <= x <= Start(b, k + 1) - 1 && Start(b, k) <= y <= Start(b, k + 1) - 1
      ensures Cmp(b, p[x], p[y], 2) == 0
    {
      BucketHolds(b, p, k, x);
      BucketHolds(b, p, k, y);
      CmpSplit(b, p[x], p[y], 1, 1);
      assert Cmp(b, p[x], p[y], 1) == Cmp(b, Next(|b|, p[x]), Next(|b|, p[y]), 0);
      var u, v := Next(|b|, p[x]), Next(|b|, p[y]);
      assert Advance(|b|, p[x], 1) == Advance(|b|, u, 0) && Advance(|b|, p[y], 1) == Advance(|b|, v, 0);
      assert Cmp(b, u, v, 1) == Cmp(b, Next(|b|, u), Next(|b|, v), 0);
    }
  }

  /** Permuting inside one bucket keeps every rotation in its bucket. */
  lemma InBucketsPermuted(b: seq<byte>, p: seq<int>, q: seq<int>, k: nat)
    requires InBuckets(b, p) && k < KEYS && Start(b, k) <= Start(b, k + 1)
    requires PermutesRange(p, q, Start(b, k), Start(b, k + 1))
    ensures InBuckets(b, q)
  {
    PermutesIsPerm(p, q, Start(b, k), Start(b, k + 1));
    forall i | 0 <= i < |q|
      ensures Start(b, KeyAt(b, q[i])) <= i < Start(b, KeyAt(b, q[i]) + 1)
    {
      if Start(b, k) <= i < Start(b, k + 1) {
        var j := PermutesFrom(p, q, Start(b, k), Start(b, k + 1), i);
        BucketHolds(b, p, k, j);
      }
    }
  }
}
