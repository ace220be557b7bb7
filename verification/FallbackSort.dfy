/** fallbackSort: rotations sorted by doubling the compared prefix, with a
    table of header bits marking the buckets. */
module FallbackSort {
  import opened Counting
  import opened Permutations
  import opened Rotations
  import QuickSort
  import FallbackQSort

  // ---- Buckets of rotations equal on their first h bytes ----

  /** p is a permutation ordered by its first h bytes, stated on neighbours. */
  ghost predicate Chained(b: seq<byte>, p: seq<int>, h: nat) {
    && |p| == |b| && IsPerm(p)
    && forall i :: 1 <= i < |p| ==> Cmp(b, p[i - 1], p[i], h) <= 0
  }

  /** Header bits mark exactly where the first h bytes change. */
  ghost predicate Marked(b: seq<byte>, p: seq<int>, bh: seq<bool>, h: nat)
    requires |p| == |b| && IsPerm(p)
  {
    && |p| <= |bh| && (|p| > 0 ==> bh[0])
    && forall i :: 1 <= i < |p| ==> (bh[i] <==> Cmp(b, p[i - 1], p[i], h) != 0)
  }

  ghost predicate Bucketed(b: seq<byte>, p: seq<int>, bh: seq<bool>, h: nat) {
    Chained(b, p, h) && Marked(b, p, bh, h)
  }

  lemma {:induction false} ChainedSorted(b: seq<byte>, p: seq<int>, h: nat, i: int, j: int)
    requires Chained(b, p, h) && 0 <= i <= j < |p|
    ensures Cmp(b, p[i], p[j], h) <= 0
    decreases j
  {
    if i == j {
      CmpRefl(b, p[i], h);
    } else {
      ChainedSorted(b, p, h, i, j - 1);
      CmpTrans(b, p[i], p[j - 1], p[j], h);
    }
  }

  lemma ChainedSortedTo(b: seq<byte>, p: seq<int>, h: nat)
    requires Chained(b, p, h)
    ensures SortedTo(b, p, h)
  {
    forall i, j | 0 <= i < j < |p|
      ensures Cmp(b, p[i], p[j], h) <= 0
    {
      ChainedSorted(b, p, h, i, j);
    }
  }

  /** The bucket a place belongs to: the last header at or before it. */
  function StartOf(bh: seq<bool>, i: nat): (j: nat)
    requires i < |bh|
    ensures j <= i
  {
    if bh[i] || i == 0 then i else StartOf(bh, i - 1)
  }

  /** Bucket numbers order the rotations as their first h bytes do. */
  lemma {:induction false} BucketOrder(b: seq<byte>, p: seq<int>, bh: seq<bool>, h: nat, i: int, j: int)
    requires Bucketed(b, p, bh, h) && 0 <= i <= j < |p|
    ensures StartOf(bh, i) <= StartOf(bh, j)
    ensures StartOf(bh, i) == StartOf(bh, j) <==> Cmp(b, p[i], p[j], h) == 0
    decreases j
  {
    CmpRefl(b, p[i], h);
    if i < j {
      BucketOrder(b, p, bh, h, i, j - 1);
      ChainedSorted(b, p, h, i, j - 1);
      CmpTrans(b, p[i], p[j - 1], p[j], h);
    }
  }

  // ---- Class numbers of the rotation h places on ----

  function Back(n: nat, x: int, h: nat): (r: int)
    requires 0 <= x < n && h <= n
    ensures 0 <= r < n || (h == n && x == 0 && r == 0)
  {
    if x - h < 0 then x - h + n else x - h
  }

  /** eclass[x] is the bucket number of the rotation h places after x. */
  ghost predicate Classes(ecl: seq<int>, p: seq<int>, bh: seq<bool>, h: nat) {
    && |ecl| == |p| <= |bh| && h <= |p| && IsPerm(p)
    && forall i :: 0 <= i < |p| ==> ecl[Back(|p|, p[i], h)] == StartOf(bh, i)
  }

  lemma ClassOf(b: seq<byte>, ecl: seq<int>, p: seq<int>, bh: seq<bool>, h: nat, x: int) returns (i: int)
    requires Bucketed(b, p, bh, h) && Classes(ecl, p, bh, h) && 0 <= x < |b|
    ensures 0 <= i < |p| && p[i] == Advance(|b|, x, h) && ecl[x] == StartOf(bh, i)
  {
    var y := Advance(|b|, x, h);
    AdvanceIs(|b|, x, h);
    PermOnto(p, y);
    i :| 0 <= i < |p| && p[i] == y;
    assert Back(|p|, p[i], h) == x;
  }

  /** Class numbers compare as the second h bytes do. */
  lemma ClassOrder(b: seq<byte>, ecl: seq<int>, p: seq<int>, bh: seq<bool>, h: nat, x: int, y: int)
    requires Bucketed(b, p, bh, h) && Classes(ecl, p, bh, h) && 0 <= x < |b| && 0 <= y < |b|
    ensures ecl[x] < ecl[y] <==> Cmp(b, Advance(|b|, x, h), Advance(|b|, y, h), h) < 0
    ensures ecl[x] == ecl[y] <==> Cmp(b, Advance(|b|, x, h), Advance(|b|, y, h), h) == 0
  {
    var i := ClassOf(b, ecl, p, bh, h, x);
    var j := ClassOf(b, ecl, p, bh, h, y);
    CmpAnti(b, p[i], p[j], h);
    if i <= j {
      BucketOrder(b, p, bh, h, i, j);
      ChainedSorted(b, p, h, i, j);
    } else {
      BucketOrder(b, p, bh, h, j, i);
      ChainedSorted(b, p, h, j, i);
    }
  }

  /** Compare first by the old bucket, then by class number: that is the order
      on twice as many bytes. */
  lemma Doubled(b: seq<byte>, ecl: seq<int>, p0: seq<int>, bh: seq<bool>, h: nat, x: int, y: int)
    requires Bucketed(b, p0, bh, h) && Classes(ecl, p0, bh, h) && 0 <= x < |b| && 0 <= y < |b|
    ensures Cmp(b, x, y, h) != 0 ==> Cmp(b, x, y, 2 * h) == Cmp(b, x, y, h)
    ensures Cmp(b, x, y, h) == 0 && ecl[x] <= ecl[y] ==> Cmp(b, x, y, 2 * h) <= 0
    ensures Cmp(b, x, y, h) == 0 ==> (Cmp(b, x, y, 2 * h) == 0 <==> ecl[x] == ecl[y])
  {
    ClassOrder(b, ecl, p0, bh, h, x, y);
    CmpTwice(b, x, y, h);
  }

  lemma CmpTwice(b: seq<byte>, x: int, y: int, h: nat)
    requires 0 <= x < |b| && 0 <= y < |b|
    ensures Cmp(b, x, y, 2 * h) == if Cmp(b, x, y, h) != 0 then Cmp(b, x, y, h) else Cmp(b, Advance(|b|, x, h), Advance(|b|, y, h), h)
  {
    CmpSplit(b, x, y, h, h);
    assert 2 * h == h + h;
  }

  // ---- The steps of the sorter ----

  /** Number the buckets: eclass[x] for the rotation h places after x. */
  method NumberClasses(eclass: array<int>, fmap: array<int>, bh: array<bool>, n: int, h: int)
    requires eclass != fmap && eclass.Length == fmap.Length == n <= bh.Length && 1 <= h <= n
    requires IsPerm(fmap[..]) && bh[0]
    modifies eclass
    ensures Classes(eclass[..], fmap[..], bh[..], h)
  {
    ghost var p, m := fmap[..], bh[..];
    var j := 0;
    for i := 0 to n
      invariant i > 0 ==> j == StartOf(m, i - 1)
      invariant forall t :: 0 <= t < i ==> eclass[Back(n, p[t], h)] == StartOf(m, t)
    {
      if bh[i] { j := i; }
      var k := fmap[i] - h;
      if k < 0 { k := k + n; }
      eclass[k] := j;
    }
  }

  predicate AllOnes(bh: array<bool>, k: int)
    requires 0 <= k && k + 32 <= bh.Length
    reads bh
  {
    forall t :: k <= t < k + 32 ==> bh[t]
  }

  predicate AllZeros(bh: array<bool>, k: int)
    requires 0 <= k && k + 32 <= bh.Length
    reads bh
  {
    forall t :: k <= t < k + 32 ==> !bh[t]
  }

  /** First clear bit at or after `from`, skipping whole words of ones. */
  method SkipSet(bh: array<bool>, from: int, ghost stop: int) returns (k: int)
    requires 0 <= from <= stop && stop + 32 <= bh.Length && !bh[stop]
    ensures from <= k <= stop && !bh[k]
    ensures forall t :: from <= t < k ==> bh[t]
  {
    k := from;
    while bh[k] && k % 32 != 0
      invariant from <= k <= stop && forall t :: from <= t < k ==> bh[t]
      decreases stop - k
    {
      k := k + 1;
    }
    if bh[k] {
      while AllOnes(bh, k)
        invariant from <= k <= stop && forall t :: from <= t < k ==> bh[t]
        decreases stop - k
      {
        k := k + 32;
      }
      while bh[k]
        invariant from <= k <= stop && forall t :: from <= t < k ==> bh[t]
        decreases stop - k
      {
        k := k + 1;
      }
    }
  }

  /** First set bit at or after `from`, skipping whole words of zeros. */
  method SkipClear(bh: array<bool>, from: int, ghost stop: int) returns (k: int)
    requires 0 <= from <= stop && stop + 32 <= bh.Length && bh[stop]
    ensures from <= k <= stop && bh[k]
    ensures forall t :: from <= t < k ==> !bh[t]
  {
    k := from;
    while !bh[k] && k % 32 != 0
      invariant from <= k <= stop && forall t :: from <= t < k ==> !bh[t]
      decreases stop - k
    {
      k := k + 1;
    }
    if !bh[k] {
      while AllZeros(bh, k)
        invariant from <= k <= stop && forall t :: from <= t < k ==> !bh[t]
        decreases stop - k
      {
        k := k + 32;
      }
      while !bh[k]
        invariant from <= k <= stop && forall t :: from <= t < k ==> !bh[t]
        decreases stop - k
      {
        k := k + 1;
      }
    }
  }

  /** Progress of one pass: places up to r have their new order and headers. */
  ghost predicate Refined(b: seq<byte>, p: seq<int>, ecl: seq<int>, bh0: seq<bool>, bh: seq<bool>, h: nat, r: int) {
    && Bucketed(b, p, bh0, h) && |ecl| == |b| && |bh| == |bh0| && -1 <= r < |b|
    && (forall i :: 1 <= i <= r && !bh0[i] ==> ecl[p[i - 1]] <= ecl[p[i]])
    && (r >= 0 ==> bh[0])
    && (forall i :: 1 <= i <= r ==> (bh[i] <==> bh0[i] || ecl[p[i - 1]] != ecl[p[i]]))
    && (forall i :: r < i < |bh| ==> bh[i] == bh0[i])
  }

  /** When every place has been refined the buckets are those of 2h bytes. */
  lemma RefinedDoubles(b: seq<byte>, p0: seq<int>, p: seq<int>, ecl: seq<int>, bh0: seq<bool>, bh: seq<bool>, h: nat)
    requires Bucketed(b, p0, bh0, h) && Classes(ecl, p0, bh0, h)
    requires Refined(b, p, ecl, bh0, bh, h, |b| - 1)
    ensures Bucketed(b, p, bh, 2 * h)
  {
    forall i | 1 <= i < |p|
      ensures Cmp(b, p[i - 1], p[i], 2 * h) <= 0
      ensures bh[i] <==> Cmp(b, p[i - 1], p[i], 2 * h) != 0
    {
      Doubled(b, ecl, p0, bh0, h, p[i - 1], p[i]);
    }
  }

  /** Places [l, r] form one bucket. */
  ghost predicate IsBucket(bh: seq<bool>, n: nat, l: int, r: int) {
    && 0 <= l <= r < n < |bh| && (l == 0 || bh[l])
    && (forall i :: l < i <= r ==> !bh[i])
    && (r + 1 == n || bh[r + 1])
  }

  lemma {:induction false} SameBucket(b: seq<byte>, p: seq<int>, bh: seq<bool>, h: nat, l: int, r: int, i: int)
    requires Bucketed(b, p, bh, h) && IsBucket(bh, |b|, l, r) && l <= i <= r
    ensures Cmp(b, p[l], p[i], h) == 0
    decreases i
  {
    if i == l {
      CmpRefl(b, p[l], h);
    } else {
      SameBucket(b, p, bh, h, l, r, i - 1);
      CmpTrans(b, p[l], p[i - 1], p[i], h);
    }
  }

  lemma PermutedSameBucket(b: seq<byte>, p: seq<int>, q: seq<int>, bh: seq<bool>, h: nat, l: int, r: int, i: int)
    requires Bucketed(b, p, bh, h) && IsBucket(bh, |b|, l, r) && l <= i <= r
    requires PermutesRange(p, q, l, r + 1)
    ensures 0 <= q[i] < |b| && Cmp(b, p[l], q[i], h) == 0 && Cmp(b, q[i], p[l], h) == 0
  {
    var x := PermutesFrom(p, q, l, r + 1, i);
    SameBucket(b, p, bh, h, l, r, x);
    CmpAnti(b, p[l], q[i], h);
  }

  lemma PermutedNeighbours(b: seq<byte>, p: seq<int>, q: seq<int>, bh: seq<bool>, h: nat, l: int, r: int, i: int)
    requires Bucketed(b, p, bh, h) && IsBucket(bh, |b|, l, r) && 1 <= i < |b|
    requires PermutesRange(p, q, l, r + 1) && IsPerm(q)
    ensures Cmp(b, q[i - 1], q[i], h) == Cmp(b, p[i - 1], p[i], h)
  {
    if l <= i - 1 <= r { PermutedSameBucket(b, p, q, bh, h, l, r, i - 1); }
    if l <= i <= r { PermutedSameBucket(b, p, q, bh, h, l, r, i); }
    if l < i <= r {
      CmpTrans(b, q[i - 1], p[l], q[i], h);
    } else if i == l {
      CmpTrans(b, p[i - 1], p[l], q[i], h);
    } else if i == r + 1 {
      SameBucket(b, p, bh, h, l, r, r);
      CmpTrans(b, p[l], p[r], p[i], h);
      CmpTrans(b, q[r], p[l], p[i], h);
    }
  }

  lemma BucketPermuted(b: seq<byte>, p: seq<int>, q: seq<int>, bh: seq<bool>, h: nat, l: int, r: int)
    requires Bucketed(b, p, bh, h) && IsBucket(bh, |b|, l, r)
    requires PermutesRange(p, q, l, r + 1)
    ensures Bucketed(b, q, bh, h)
  {
    PermutesIsPerm(p, q, l, r + 1);
    forall i | 1 <= i < |b|
      ensures Cmp(b, q[i - 1], q[i], h) == Cmp(b, p[i - 1], p[i], h)
    {
      PermutedNeighbours(b, p, q, bh, h, l, r, i);
    }
  }

  /** Set a header wherever the class number changes inside the bucket. */
  method MarkBucket(fmap: array<int>, eclass: array<int>, bh: array<bool>, l: int, r: int)
    requires 0 <= l <= r < fmap.Length == eclass.Length < bh.Length && bh[l]
    requires forall x :: 0 <= x < fmap.Length ==> 0 <= fmap[x] < eclass.Length
    requires forall x :: 0 <= x < eclass.Length ==> eclass[x] >= 0
    requires forall x :: l < x <= r ==> !bh[x]
    modifies bh
    ensures forall x :: 0 <= x < bh.Length && !(l < x <= r) ==> bh[x] == old(bh[x])
    ensures forall x :: l < x <= r ==> (bh[x] <==> eclass[fmap[x - 1]] != eclass[fmap[x]])
  {
    var cc := -1;
    for i := l to r + 1
      invariant i == l ==> cc == -1
      invariant i > l ==> cc == eclass[fmap[i - 1]]
      invariant forall x :: 0 <= x < bh.Length && !(l < x < i) ==> bh[x] == old(bh[x])
      invariant forall x :: l < x < i ==> (bh[x] <==> eclass[fmap[x - 1]] != eclass[fmap[x]])
    {
      var cc1 := eclass[fmap[i]];
      if cc != cc1 {
        bh[i] := true;
        cc := cc1;
      }
    }
  }

  method RefineBucket(fmap: array<int>, eclass: array<int>, bh: array<bool>, l: int, r: int,
                      ghost b: seq<byte>, ghost bh0: seq<bool>, ghost h: nat)
    requires fmap != eclass && fmap.Length == eclass.Length == |b| <= QuickSort.MAX_BLOCK
    requires Refined(b, fmap[..], eclass[..], bh0, bh[..], h, l - 1)
    requires IsBucket(bh0, |b|, l, r) && bh0[l]
    requires forall x :: 0 <= x < eclass.Length ==> eclass[x] >= 0
    modifies fmap, bh
    ensures Refined(b, fmap[..], eclass[..], bh0, bh[..], h, r)
    ensures forall x :: r < x < bh.Length ==> bh[x] == old(bh[x])
  {
    ghost var p, e, m := fmap[..], eclass[..], bh[..];
    FallbackQSort.QSort3(fmap, eclass[..], l, r);
    ghost var q := fmap[..];
    BucketPermuted(b, p, q, bh0, h, l, r);
    assert m[l];
    MarkBucket(fmap, eclass, bh, l, r);
    SortedBucket(q, e, l, r);
    RefinedExtend(b, p, q, e, bh0, m, bh[..], h, l, r);
  }

  lemma RefinedExtend(b: seq<byte>, p: seq<int>, q: seq<int>, ecl: seq<int>, bh0: seq<bool>, bh: seq<bool>, bh': seq<bool>, h: nat, l: int, r: int)
    requires Refined(b, p, ecl, bh0, bh, h, l - 1) && IsBucket(bh0, |b|, l, r) && bh0[l] && |bh'| == |bh|
    requires PermutesRange(p, q, l, r + 1) && Bucketed(b, q, bh0, h)
    requires forall x :: l < x <= r ==> ecl[q[x - 1]] <= ecl[q[x]]
    requires forall x :: l < x <= r ==> (bh'[x] <==> ecl[q[x - 1]] != ecl[q[x]])
    requires forall x :: 0 <= x < |bh| && !(l < x <= r) ==> bh'[x] == bh[x]
    ensures Refined(b, q, ecl, bh0, bh', h, r)
  {
    forall i | 1 <= i <= r
      ensures !bh0[i] ==> ecl[q[i - 1]] <= ecl[q[i]]
      ensures bh'[i] <==> bh0[i] || ecl[q[i - 1]] != ecl[q[i]]
    {
      if i < l {
        assert p[i] == q[i] && p[i - 1] == q[i - 1];
      }
    }
  }

  lemma SortedBucket(p: seq<int>, ecl: seq<int>, l: int, r: int)
    requires QuickSort.KeySorted(p, ecl, l, r)
    requires forall i :: 0 <= i < |p| ==> 0 <= p[i] < |ecl|
    ensures forall i :: l < i <= r ==> ecl[p[i - 1]] <= ecl[p[i]]
  {
    forall i | l < i <= r
      ensures ecl[p[i - 1]] <= ecl[p[i]]
    {
      assert QuickSort.KeyLe(ecl, p[i - 1], p[i]);
    }
  }

  /** Finds and sorts the next bucket with more than one member. */
  method RefineNext(fmap: array<int>, eclass: array<int>, bh: array<bool>, n: int, r: int,
                    ghost b: seq<byte>, ghost bh0: seq<bool>, ghost h: nat)
    returns (found: bool, l: int, r': int)
    requires fmap != eclass && fmap.Length == eclass.Length == n == |b| && 1 <= n <= QuickSort.MAX_BLOCK
    requires Refined(b, fmap[..], eclass[..], bh0, bh[..], h, r)
    requires n + 33 <= bh.Length && bh[n] && !bh[n + 1] && bh[r + 1]
    requires forall x :: 0 <= x < n ==> eclass[x] >= 0
    modifies fmap, bh
    ensures forall x :: n <= x < bh.Length ==> bh[x] == old(bh[x])
    ensures found ==> r < l < r' < n && bh[r' + 1] && Refined(b, fmap[..], eclass[..], bh0, bh[..], h, r')
    ensures !found ==> Refined(b, fmap[..], eclass[..], bh0, bh[..], h, n - 1) && forall i :: r < i < n ==> bh0[i]
  {
    found, l, r' := NextBucket(bh, n, r);
    RefinedSkip(b, fmap[..], eclass[..], bh0, bh[..], h, r, if found then l - 1 else n - 1);
    if found {
      BucketBefore(bh0, bh[..], n, l, r');
      RefineBucket(fmap, eclass, bh, l, r', b, bh0, h);
    }
  }

  lemma BucketBefore(bh0: seq<bool>, bh: seq<bool>, n: nat, l: int, r: int)
    requires |bh| == |bh0| && 0 <= l && IsBucket(bh, n, l, r) && bh[l] && (forall i :: l <= i < |bh| ==> bh[i] == bh0[i])
    ensures IsBucket(bh0, n, l, r) && bh0[l]
  {
  }

  /** Sort every bucket with more than one member by class number. */
  method RefineAll(fmap: array<int>, eclass: array<int>, bh: array<bool>, n: int, ghost b: seq<byte>, ghost h: nat)
    returns (notDone: int)
    requires fmap != eclass && fmap.Length == eclass.Length == n == |b| && 1 <= n <= QuickSort.MAX_BLOCK
    requires Bucketed(b, fmap[..], bh[..], h) && Classes(eclass[..], fmap[..], bh[..], h)
    requires n + 33 <= bh.Length && bh[n] && !bh[n + 1]
    requires forall x :: 0 <= x < n ==> eclass[x] >= 0
    modifies fmap, bh
    ensures Refined(b, fmap[..], eclass[..], old(bh[..]), bh[..], h, n - 1)
    ensures notDone == 0 ==> forall i :: 0 <= i < n ==> old(bh[i])
    ensures forall x :: n <= x < bh.Length ==> bh[x] == old(bh[x])
  {
    ghost var bh0 := bh[..];
    assert bh0[0];
    notDone := 0;
    var r := -1;
    while true
      invariant Refined(b, fmap[..], eclass[..], bh0, bh[..], h, r)
      invariant notDone >= 0 && (notDone == 0 ==> forall i :: 0 <= i <= r ==> bh0[i])
      invariant bh[r + 1] && forall x :: n <= x < bh.Length ==> bh[x] == bh0[x]
      decreases n - r
    {
      var found, l, r' := RefineNext(fmap, eclass, bh, n, r, b, bh0, h);
      if !found { break; }
      notDone := notDone + (r' - l + 1);
      r := r';
    }
  }

  /** Singleton buckets need no work. */
  lemma RefinedSkip(b: seq<byte>, p: seq<int>, ecl: seq<int>, bh0: seq<bool>, bh: seq<bool>, h: nat, r: int, l: int)
    requires Refined(b, p, ecl, bh0, bh, h, r) && r <= l < |b|
    requires forall i :: r < i <= l ==> bh[i]
    ensures Refined(b, p, ecl, bh0, bh, h, l)
    ensures forall i :: r < i <= l ==> bh0[i]
  {
  }

  /** The next bucket with more than one member after place r. */
  method NextBucket(bh: array<bool>, n: int, r: int) returns (found: bool, l: int, r': int)
    requires -1 <= r < n && n + 33 <= bh.Length
    requires bh[n] && !bh[n + 1] && bh[r + 1]
    ensures found ==> r < l < r' < n && bh[l] && IsBucket(bh[..], n, l, r') && forall i :: r < i < l ==> bh[i]
    ensures found ==> bh[r' + 1]
    ensures !found ==> forall i :: r < i < n ==> bh[i]
  {
    var k := SkipSet(bh, r + 1, n + 1);
    l := k - 1;
    if l >= n { return false, l, l; }
    k := SkipClear(bh, k, n);
    r' := k - 1;
    found := true;
  }

  // ---- The initial one-byte radix sort ----

  /** fmap lists positions by byte, equal bytes in reverse order. */
  ghost predicate Placed(b: seq<byte>, p: seq<int>) {
    && |p| == |b|
    && forall x :: 0 <= x < |b| ==> 0 <= SlotBack(b, x) < |p| && p[SlotBack(b, x)] == x
  }

  lemma PlacedSlot(b: seq<byte>, p: seq<int>, k: int)
    requires Placed(b, p) && 0 <= k < |p|
    ensures 0 <= p[k] < |b| && SlotBack(b, p[k]) == k
  {
    var q := seq(|b|, x requires 0 <= x < |b| => SlotBack(b, x));
    forall i, j | 0 <= i < j < |q|
      ensures q[i] != q[j]
    {
      if b[i] < b[j] { SlotBackOrder(b, i, j); } else { SlotBackOrder(b, j, i); }
    }
    PermOnto(q, k);
  }

  lemma PlacedChained(b: seq<byte>, p: seq<int>)
    requires Placed(b, p)
    ensures Chained(b, p, 1)
  {
    forall k | 0 <= k < |p|
      ensures 0 <= p[k] < |b| && SlotBack(b, p[k]) == k
    {
      PlacedSlot(b, p, k);
    }
    forall i | 1 <= i < |p|
      ensures Cmp(b, p[i - 1], p[i], 1) <= 0
    {
      if b[p[i]] < b[p[i - 1]] { SlotBackOrder(b, p[i], p[i - 1]); }
    }
  }

  /** Bucket starts are the places Smaller(c). */
  lemma PlacedHeader(b: seq<byte>, p: seq<int>, k: int, c: int)
    requires Placed(b, p) && 1 <= k < |p| && 0 <= c < 256
    ensures 0 <= p[k - 1] < |b| && 0 <= p[k] < |b|
    ensures k == Smaller(b, c) ==> b[p[k - 1]] != b[p[k]]
    ensures b[p[k - 1]] != b[p[k]] ==> k == Smaller(b, b[p[k]])
  {
    PlacedSlot(b, p, k - 1);
    PlacedSlot(b, p, k);
    var x, y := p[k - 1], p[k];
    SlotRange(b, x, 256);
    SlotRange(b, y, 256);
    if b[y] < b[x] { SlotBackOrder(b, y, x); }
    if b[x] < b[y] { SmallerMono(b, b[x] as int + 1, b[y]); }
    if b[x] >= c { SmallerMono(b, c, b[x]); } else if b[y] < c { SmallerMono(b, b[y] as int + 1, c); }
  }

  ghost predicate HeadersAtStarts(b: seq<byte>, bh: seq<bool>) {
    && |b| < |bh|
    && (forall c :: 0 <= c < 256 ==> Smaller(b, c) < |bh| && bh[Smaller(b, c)])
    && forall k :: 0 <= k < |b| && bh[k] ==> exists c :: 0 <= c < 256 && k == Smaller(b, c)
  }

  lemma RadixBucketed(b: seq<byte>, p: seq<int>, bh: seq<bool>)
    requires Placed(b, p) && HeadersAtStarts(b, bh)
    ensures Bucketed(b, p, bh, 1)
  {
    PlacedChained(b, p);
    assert Smaller(b, 0) == 0;
    forall k | 1 <= k < |p|
      ensures bh[k] <==> Cmp(b, p[k - 1], p[k], 1) != 0
    {
      PlacedHeader(b, p, k, 0);
      if bh[k] {
        var c :| 0 <= c < 256 && k == Smaller(b, c);
        PlacedHeader(b, p, k, c);
      }
    }
  }

  method CountBytes(block: array<byte>, n: int) returns (ftab: array<int>, ftabCopy: array<int>)
    requires 0 <= n <= block.Length
    ensures fresh(ftab) && fresh(ftabCopy) && ftab != ftabCopy && ftab.Length == 257 && ftabCopy.Length == 256
    ensures forall c :: 0 <= c < 257 ==> ftab[c] == Smaller(block[..n], c + 1)
    ensures forall c :: 0 <= c < 256 ==> ftabCopy[c] == Occ(block[..n], c, n)
  {
    ghost var b := block[..n];
    ftab := new int[257](_ => 0);
    for i := 0 to n
      invariant forall c :: 0 <= c < 257 ==> ftab[c] == Occ(b, c, i)
    {
      ftab[block[i]] := ftab[block[i]] + 1;
    }
    ftabCopy := new int[256];
    for i := 0 to 256
      invariant forall c :: 0 <= c < i ==> ftabCopy[c] == Occ(b, c, n)
      invariant forall c :: 0 <= c < 257 ==> ftab[c] == Occ(b, c, n)
    {
      ftabCopy[i] := ftab[i];
    }
    for i := 1 to 257
      invariant forall c :: 0 <= c < i ==> ftab[c] == Smaller(b, c + 1)
      invariant forall c :: i <= c < 257 ==> ftab[c] == Occ(b, c, n)
      invariant forall c :: 0 <= c < 256 ==> ftabCopy[c] == Occ(b, c, n)
    {
      ftab[i] := ftab[i] + ftab[i - 1];
    }
  }

  method PlaceBytes(block: array<byte>, fmap: array<int>, ftab: array<int>, n: int)
    requires n == fmap.Length <= block.Length && ftab.Length == 257 && ftab != fmap
    requires forall c :: 0 <= c < 257 ==> ftab[c] == Smaller(block[..n], c + 1)
    modifies fmap, ftab
    ensures Placed(block[..n], fmap[..])
    ensures forall c :: 0 <= c < 256 ==> ftab[c] == Smaller(block[..n], c)
  {
    ghost var b := block[..n];
    for i := 0 to n
      invariant forall c :: 0 <= c < 257 ==> ftab[c] == Smaller(b, c + 1) - Occ(b, c, i)
      invariant forall x :: 0 <= x < i ==> 0 <= SlotBack(b, x) < n && fmap[SlotBack(b, x)] == x
    {
      SlotRange(b, i, 256);
      var j := block[i];
      var k := ftab[j] - 1;
      assert k == SlotBack(b, i);
      forall x | 0 <= x < i
        ensures SlotBack(b, x) != k
      {
        if b[x] < b[i] { SlotBackOrder(b, x, i); } else { SlotBackOrder(b, i, x); }
      }
      ftab[j] := k;
      fmap[k] := i;
    }
  }

  method ClearBits(bh: array<bool>, m: int)
    requires 0 <= m <= bh.Length
    modifies bh
    ensures forall k :: 0 <= k < m ==> !bh[k]
  {
    for i := 0 to m
      invariant forall k :: 0 <= k < i ==> !bh[k]
    {
      bh[i] := false;
    }
  }

  method SetStarts(bh: array<bool>, ftab: array<int>)
    requires ftab.Length == 257 && forall c :: 0 <= c < 256 ==> 0 <= ftab[c] < bh.Length
    modifies bh
    ensures forall c :: 0 <= c < 256 ==> bh[ftab[c]]
    ensures forall k :: 0 <= k < bh.Length && bh[k] && !old(bh[k]) ==> exists c :: 0 <= c < 256 && k == ftab[c]
  {
    for i := 0 to 256
      invariant forall c :: 0 <= c < i ==> bh[ftab[c]]
      invariant forall k :: 0 <= k < bh.Length && bh[k] && !old(bh[k]) ==> exists c :: 0 <= c < 256 && k == ftab[c]
    {
      bh[ftab[i]] := true;
    }
  }

  /** Alternating bits past the end stop the bucket scans. */
  method SetSentinels(bh: array<bool>, n: int)
    requires 0 <= n && n + 64 <= bh.Length
    modifies bh
    ensures bh[n] && !bh[n + 1]
    ensures forall k :: 0 <= k < n ==> bh[k] == old(bh[k])
  {
    for i := 0 to 32
      invariant forall k :: 0 <= k < n ==> bh[k] == old(bh[k])
      invariant i > 0 ==> bh[n] && !bh[n + 1]
    {
      bh[n + 2 * i] := true;
      bh[n + 2 * i + 1] := false;
    }
  }

  method InitialHeaders(bh: array<bool>, ftab: array<int>, n: int, ghost b: seq<byte>)
    requires 0 < n == |b| && ftab.Length == 257 && n + 128 <= bh.Length
    requires forall c :: 0 <= c < 256 ==> ftab[c] == Smaller(b, c)
    modifies bh
    ensures HeadersAtStarts(b, bh[..])
    ensures bh[n] && !bh[n + 1]
  {
    StartsInRange(b);
    ClearBits(bh, 32 * (2 + n / 32));
    SetStarts(bh, ftab);
    SetSentinels(bh, n);
    forall c | 0 <= c < 256
      ensures bh[Smaller(b, c)]
    {
      assert ftab[c] == Smaller(b, c);
    }
  }

  lemma StartsInRange(b: seq<byte>)
    ensures forall c :: 0 <= c < 256 ==> Smaller(b, c) <= |b|
  {
    forall c | 0 <= c < 256
      ensures Smaller(b, c) <= |b|
    {
      SmallerMono(b, c, 256);
      SmallerTotal(b, 256);
    }
  }

  // ---- The sorter ----

  /** Write the block back: its bytes in order are the first bytes of the sorted rotations. */
  method RestoreBlock(block: array<byte>, fmap: array<int>, ftabCopy: array<int>, n: int, ghost b: seq<byte>)
    requires 0 < n == fmap.Length == |b| <= block.Length && ftabCopy.Length == 256 && ftabCopy != fmap
    requires IsPerm(fmap[..])
    requires forall i :: 0 <= i < n ==> Smaller(b, b[fmap[i]]) <= i < Smaller(b, b[fmap[i]] as int + 1)
    requires forall c :: 0 <= c < 256 ==> ftabCopy[c] == Occ(b, c, n)
    modifies block, ftabCopy
    ensures block[..n] == b
  {
    SmallerTotal(b, 256);
    var j := 0;
    for i := 0 to n
      invariant 0 <= j < 256 && Smaller(b, j) <= i <= Smaller(b, j + 1)
      invariant ftabCopy[j] == Smaller(b, j + 1) - i
      invariant forall c :: j < c < 256 ==> ftabCopy[c] == Occ(b, c, n)
      invariant forall t :: 0 <= t < i ==> block[fmap[t]] == b[fmap[t]]
    {
      while ftabCopy[j] == 0
        invariant 0 <= j < 256 && Smaller(b, j) <= i <= Smaller(b, j + 1)
        invariant ftabCopy[j] == Smaller(b, j + 1) - i
        invariant forall c :: j < c < 256 ==> ftabCopy[c] == Occ(b, c, n)
        decreases 256 - j
      {
        j := j + 1;
      }
      ByteAt(b, i, j, b[fmap[i]]);
      ftabCopy[j] := ftabCopy[j] - 1;
      block[fmap[i]] := j;
    }
    forall x | 0 <= x < n
      ensures block[x] == b[x]
    {
      PermOnto(fmap[..], x);
    }
  }

  lemma ByteAt(b: seq<byte>, i: int, c: int, d: int)
    requires 0 <= c < 256 && 0 <= d < 256
    requires Smaller(b, c) <= i < Smaller(b, c + 1) && Smaller(b, d) <= i < Smaller(b, d + 1)
    ensures c == d
  {
    if c < d { SmallerMono(b, c + 1, d); } else if d < c { SmallerMono(b, d + 1, c); }
  }

  /** One doubling pass: number the classes at depth h, then refine. */
  method Pass(fmap: array<int>, eclass: array<int>, bh: array<bool>, n: int, h: int, ghost b: seq<byte>)
    returns (notDone: int)
    requires fmap != eclass && fmap.Length == eclass.Length == n == |b| && 1 <= h <= n <= QuickSort.MAX_BLOCK
    requires Bucketed(b, fmap[..], bh[..], h)
    requires n + 33 <= bh.Length && bh[n] && !bh[n + 1]
    modifies fmap, eclass, bh
    ensures Bucketed(b, fmap[..], bh[..], 2 * h) && bh[n] && !bh[n + 1]
    ensures notDone == 0 ==> Chained(b, fmap[..], n)
  {
    ghost var p, m := fmap[..], bh[..];
    NumberClasses(eclass, fmap, bh, n, h);
    ClassesNatural(eclass[..], p, m, h);
    notDone := RefineAll(fmap, eclass, bh, n, b, h);
    RefinedDoubles(b, p, fmap[..], eclass[..], m, bh[..], h);
    if notDone == 0 {
      AllSingletons(b, fmap[..], m, h);
    }
  }

  lemma ClassesNatural(ecl: seq<int>, p: seq<int>, bh: seq<bool>, h: nat)
    requires Classes(ecl, p, bh, h)
    ensures forall x :: 0 <= x < |ecl| ==> ecl[x] >= 0
  {
    forall x | 0 <= x < |ecl|
      ensures ecl[x] >= 0
    {
      var y := if x + h < |p| then x + h else x + h - |p|;
      PermOnto(p, y);
      var i :| 0 <= i < |p| && p[i] == y;
      assert Back(|p|, p[i], h) == x;
    }
  }

  /** Once every bucket is a singleton the order is final. */
  lemma AllSingletons(b: seq<byte>, p: seq<int>, bh: seq<bool>, h: nat)
    requires Bucketed(b, p, bh, h) && h <= |b|
    requires forall i :: 0 <= i < |p| ==> bh[i]
    ensures Chained(b, p, |b|)
  {
    forall i | 1 <= i < |p|
      ensures Cmp(b, p[i - 1], p[i], |b|) <= 0
    {
      assert bh[i];
      CmpPrefix(b, p[i - 1], p[i], h, |b|);
    }
  }

  /** Sort all rotations of the block. The class numbers share memory with the
      block, so its bytes are lost once numbering starts and are rebuilt at the end. */
  method Sort(block: array<byte>, fmap: array<int>, bh: array<bool>, n: int)
    requires 0 < n == fmap.Length <= block.Length && n <= QuickSort.MAX_BLOCK && n + 128 <= bh.Length
    modifies block, fmap, bh
    ensures RotationSorted(old(block[..n]), fmap[..])
    ensures block[..n] == old(block[..n])
  {
    ghost var b := block[..n];
    var ftabCopy := RadixPhase(block, fmap, bh, n);
    ghost var radix := fmap[..];
    var eclass := new int[n];
    modify block;
    Refinement(fmap, eclass, bh, n, b);
    SortedResult(b, radix, fmap[..]);
    RestoreBlock(block, fmap, ftabCopy, n, b);
  }

  lemma SortedResult(b: seq<byte>, radix: seq<int>, p: seq<int>)
    requires Placed(b, radix) && Chained(b, p, |b|) && |b| > 0
    ensures RotationSorted(b, p)
    ensures forall i :: 0 <= i < |b| ==> Smaller(b, b[p[i]]) <= i < Smaller(b, b[p[i]] as int + 1)
  {
    ChainedSortedTo(b, p, |b|);
    FirstBytes(b, radix, p);
  }

  method RadixPhase(block: array<byte>, fmap: array<int>, bh: array<bool>, n: int) returns (ftabCopy: array<int>)
    requires 0 < n == fmap.Length <= block.Length && n + 128 <= bh.Length
    modifies fmap, bh
    ensures fresh(ftabCopy) && ftabCopy.Length == 256
    ensures forall c :: 0 <= c < 256 ==> ftabCopy[c] == Occ(block[..n], c, n)
    ensures Placed(block[..n], fmap[..]) && Bucketed(block[..n], fmap[..], bh[..], 1)
    ensures bh[n] && !bh[n + 1]
  {
    var ftab;
    ftab, ftabCopy := CountBytes(block, n);
    PlaceBytes(block, fmap, ftab, n);
    InitialHeaders(bh, ftab, n, block[..n]);
    RadixBucketed(block[..n], fmap[..], bh[..]);
  }

  method Refinement(fmap: array<int>, eclass: array<int>, bh: array<bool>, n: int, ghost b: seq<byte>)
    requires fmap != eclass && fmap.Length == eclass.Length == n == |b| && 1 <= n <= QuickSort.MAX_BLOCK
    requires Bucketed(b, fmap[..], bh[..], 1)
    requires n + 33 <= bh.Length && bh[n] && !bh[n + 1]
    modifies fmap, eclass, bh
    ensures Chained(b, fmap[..], n)
  {
    var h := 1;
    while true
      invariant 1 <= h <= n && Bucketed(b, fmap[..], bh[..], h) && bh[n] && !bh[n + 1]
      decreases n - h
    {
      var notDone := Pass(fmap, eclass, bh, n, h, b);
      h := h * 2;
      if h > n || notDone == 0 {
        ChainedShorter(b, fmap[..], h, n);
        break;
      }
    }
  }

  lemma ChainedShorter(b: seq<byte>, p: seq<int>, h: nat, n: nat)
    requires Chained(b, p, h)
    ensures n <= h ==> Chained(b, p, n)
  {
    if n <= h {
      forall i | 1 <= i < |p|
        ensures Cmp(b, p[i - 1], p[i], n) <= 0
      {
        CmpPrefix(b, p[i - 1], p[i], n, h);
      }
    }
  }

  /** The final order starts with the same bytes as the radix order. */
  lemma FirstBytes(b: seq<byte>, radix: seq<int>, p: seq<int>)
    requires Placed(b, radix) && RotationSorted(b, p) && |b| > 0
    ensures forall i :: 0 <= i < |b| ==> Smaller(b, b[p[i]]) <= i < Smaller(b, b[p[i]] as int + 1)
  {
    PlacedChained(b, radix);
    ChainedSortedTo(b, radix, 1);
    forall i, j | 0 <= i < j < |p|
      ensures Cmp(b, p[i], p[j], 1) <= 0
    {
      CmpPrefix(b, p[i], p[j], 1, |b|);
    }
    forall i | 0 <= i < |b|
      ensures Smaller(b, b[p[i]]) <= i < Smaller(b, b[p[i]] as int + 1)
    {
      SortedPermsAgree(b, p, radix, 1, i);
      PlacedSlot(b, radix, i);
      SlotRange(b, radix[i], 256);
      assert Cmp(b, p[i], radix[i], 1) == 0;
    }
  }
}
