/** mainSort: radix sort on two bytes, then big bucket by big bucket, sorting
    the small buckets that pointer scans have not already put in order. */
module MainSort {
  import opened Counting
  import opened Permutations
  import opened Rotations
  import opened QuickSort
  import opened MainQSort
  import opened PointerScan
  import opened Buckets
  import opened ScanOutcome

  // ---- The bucket table with its "sorted" flags ----

  const SETMASK := 0x200000

  function IsSet(v: int): bool { v >= SETMASK }

  function Cleared(v: int): int { if v >= SETMASK then v - SETMASK else v }

  function WithMask(v: int): int { if v >= SETMASK then v else v + SETMASK }

  ghost predicate TableOk(b: seq<byte>, ft: seq<int>) {
    && |ft| == KEYS + 1
    && forall k :: 0 <= k <= KEYS ==> 0 <= ft[k] && Cleared(ft[k]) == Start(b, k)
  }

  /** Flagged buckets are sorted, and big buckets that are done are wholly flagged. */
  ghost predicate Progress(b: seq<byte>, rank: seq<int>, p: seq<int>, ft: seq<int>, done: seq<bool>) {
    && TableOk(b, ft) && InBuckets(b, p) && |done| == 256
    && (forall k :: 0 <= k < KEYS && IsSet(ft[k]) ==> BucketSorted(b, rank, p, k))
    && forall k :: 0 <= k < KEYS && done[k / 256] ==> IsSet(ft[k])
  }

  // ---- Set-up: the two-byte radix sort ----

  method CountPairs(block: array<byte>, ftab: array<int>, n: int)
    requires 0 < n <= block.Length && ftab.Length == KEYS + 1
    modifies ftab
    ensures forall k :: 0 <= k <= KEYS ==> ftab[k] == Start(block[..n], k + 1)
  {
    ghost var b := block[..n];
    ghost var ks := Keys(b);
    for i := 0 to KEYS + 1
      invariant forall k :: 0 <= k < i ==> ftab[k] == 0
    {
      ftab[i] := 0;
    }
    var j := block[0] as int * 256;
    for i := n downto 0
      invariant j / 256 == b[if i == n then 0 else i]
      invariant forall k :: 0 <= k <= KEYS ==> ftab[k] == Occ(ks, k, n) - Occ(ks, k, i)
    {
      j := j / 256 + block[i] as int * 256;
      assert j == ks[i];
      ftab[j] := ftab[j] + 1;
    }
    SumTable(ftab, ks);
  }

  method SumTable(ftab: array<int>, ghost ks: seq<int>)
    requires ftab.Length == KEYS + 1
    requires forall k :: 0 <= k <= KEYS ==> ftab[k] == Occ(ks, k, |ks|)
    modifies ftab
    ensures forall k :: 0 <= k <= KEYS ==> ftab[k] == Smaller(ks, k + 1)
  {
    assert Smaller(ks, 1) == Smaller(ks, 0) + Occ(ks, 0, |ks|);
    for i := 1 to KEYS + 1
      invariant forall k :: 0 <= k < i ==> ftab[k] == Smaller(ks, k + 1)
      invariant forall k :: i <= k <= KEYS ==> ftab[k] == Occ(ks, k, |ks|)
    {
      ftab[i] := ftab[i] + ftab[i - 1];
    }
  }

  ghost predicate Placed(b: seq<byte>, p: seq<int>) {
    && |p| == |b|
    && forall x :: 0 <= x < |b| ==> Slot(Keys(b), x) < |p| && p[Slot(Keys(b), x)] == x
  }

  method PlacePairs(block: array<byte>, ptr: array<int>, ftab: array<int>, n: int)
    requires 0 < n == ptr.Length <= block.Length && ftab.Length == KEYS + 1 && ptr != ftab
    requires forall k :: 0 <= k <= KEYS ==> ftab[k] == Start(block[..n], k + 1)
    modifies ptr, ftab
    ensures Placed(block[..n], ptr[..])
    ensures forall k :: 0 <= k < KEYS ==> ftab[k] == Start(block[..n], k)
    ensures ftab[KEYS] == old(ftab[KEYS])
  {
    ghost var b := block[..n];
    ghost var ks := Keys(b);
    var s := block[0] as int * 256;
    for i := n downto 0
      invariant s / 256 == b[if i == n then 0 else i]
      invariant forall k :: 0 <= k < KEYS ==> ftab[k] == Start(b, k) + Occ(ks, k, i)
      invariant ftab[KEYS] == old(ftab[KEYS])
      invariant forall x :: i <= x < n ==> Slot(ks, x) < n && ptr[Slot(ks, x)] == x
    {
      s := s / 256 + block[i] as int * 256;
      assert s == ks[i];
      var j := ftab[s] - 1;
      SlotFresh(ks, i);
      ftab[s] := j;
      ptr[j] := i;
    }
  }

  lemma SlotFresh(ks: seq<int>, i: int)
    requires 0 <= i < |ks| && InRange(ks, KEYS)
    ensures 0 <= Slot(ks, i) < |ks|
    ensures forall x :: 0 <= x < |ks| && x != i ==> Slot(ks, x) != Slot(ks, i)
  {
    SlotRange(ks, i, KEYS);
    forall x | 0 <= x < |ks| && x != i
      ensures Slot(ks, x) != Slot(ks, i)
    {
      if ks[i] < ks[x] || (ks[i] == ks[x] && i < x) { SlotOrder(ks, i, x); } else { SlotOrder(ks, x, i); }
    }
  }

  lemma PlacedInBuckets(b: seq<byte>, p: seq<int>)
    requires Placed(b, p)
    ensures InBuckets(b, p)
  {
    var ks := Keys(b);
    var slots := seq(|b|, x requires 0 <= x < |b| => Slot(ks, x));
    forall i, j | 0 <= i < j < |slots|
      ensures slots[i] != slots[j]
    {
      if ks[i] <= ks[j] { SlotOrder(ks, i, j); } else { SlotOrder(ks, j, i); }
    }
    forall i | 0 <= i < |p|
      ensures 0 <= p[i] < |b| && Slot(ks, p[i]) == i
      ensures Start(b, KeyAt(b, p[i])) <= i < Start(b, KeyAt(b, p[i]) + 1)
    {
      PermOnto(slots, i);
      SlotRange(ks, p[i], KEYS);
    }
  }

  method Overshoot(block: array<byte>, quadrant: array<int>, n: int)
    requires OVERSHOOT < n && block.Length == quadrant.Length == n + OVERSHOOT
    modifies block, quadrant
    ensures Mirrored(block[..], old(block[..n])) && QuadrantOk(old(block[..n]), quadrant[..])
  {
    ghost var b := block[..n];
    for i := 0 to n
      invariant forall x :: 0 <= x < i ==> quadrant[x] == 0
      invariant forall x :: 0 <= x < n ==> block[x] == b[x]
    {
      quadrant[i] := 0;
    }
    for i := 0 to OVERSHOOT
      invariant forall x :: 0 <= x < n ==> block[x] == b[x]
      invariant forall x :: 0 <= x < i ==> block[n + x] == b[x]
      invariant forall x :: 0 <= x < n + i ==> quadrant[x] == 0
    {
      block[n + i] := block[i];
      quadrant[n + i] := 0;
    }
  }

  method SetUp(ptr: array<int>, block: array<byte>, quadrant: array<int>, ftab: array<int>, n: int)
    requires OVERSHOOT < n == ptr.Length <= MAX_BLOCK && block.Length == quadrant.Length == n + OVERSHOOT && ftab.Length == KEYS + 1
    requires ptr != quadrant && ptr != ftab && quadrant != ftab
    modifies ptr, block, quadrant, ftab
    ensures Mirrored(block[..], old(block[..n])) && QuadrantOk(old(block[..n]), quadrant[..])
    ensures InBuckets(old(block[..n]), ptr[..]) && TableOk(old(block[..n]), ftab[..])
    ensures forall k :: 0 <= k <= KEYS ==> !IsSet(ftab[k])
  {
    ghost var b := block[..n];
    CountPairs(block, ftab, n);
    PlacePairs(block, ptr, ftab, n);
    PlacedInBuckets(b, ptr[..]);
    LastStart(b);
    Overshoot(block, quadrant, n);
  }

  lemma LastStart(b: seq<byte>)
    ensures Start(b, KEYS) == Start(b, KEYS + 1) == |b|
    ensures forall k :: 0 <= k <= KEYS ==> Start(b, k) <= |b|
  {
    SmallerTotal(Keys(b), KEYS);
    SmallerTotal(Keys(b), KEYS + 1);
    forall k | 0 <= k <= KEYS
      ensures Start(b, k) <= |b|
    {
      StartMono(b, k, KEYS);
    }
  }

  // ---- The order in which big buckets are processed ----

  /** The sizes of the big buckets. */
  ghost function BigSizes(ft: seq<int>): (sizes: seq<int>)
    requires |ft| == KEYS + 1
    ensures |sizes| == 256 && forall c {:trigger sizes[c]} :: 0 <= c < 256 ==> sizes[c] == ft[(c + 1) * 256] - ft[c * 256]
  {
    seq(256, c requires 0 <= c < 256 => ft[(c + 1) * 256] - ft[c * 256])
  }

  /** Shift larger big buckets right until the place of vv is found. */
  method MakeRoomBig(order: array<int>, ftab: array<int>, i: int, h: int, vv: int, ghost sizes: seq<int>)
    returns (j: int, ghost u: seq<int>)
    requires order.Length == 256 && IsPerm(order[..]) && ftab.Length == KEYS + 1 && ftab != order && 1 <= h <= i < 256
    requires vv == order[i] && sizes == BigSizes(ftab[..])
    modifies order
    ensures Room(order, old(order[..]), u, vv, 0, j, i, 255, h, sizes)
    ensures h == 1 && 0 < j ==> KeyLe(sizes, order[j - 1], vv)
  {
    ghost var s := order[..];
    assert s[i] == vv;
    u := s;
    j := i;
    while h <= j
      invariant Room(order, s, u, vv, 0, j, i, 255, h, sizes)
    {
      var w := order[j - h];
      assert w == s[j - h];
      assert KeyOf(sizes, 0, w) == ftab[(w + 1) * 256] - ftab[w * 256];
      assert KeyOf(sizes, 0, vv) == ftab[(vv + 1) * 256] - ftab[vv * 256];
      if ftab[(w + 1) * 256] - ftab[w * 256] <= ftab[(vv + 1) * 256] - ftab[vv * 256] { break; }
      u := Shift(order, j, h, s, u, vv, 0, i, 255, sizes);
      j := j - h;
    }
  }

  /** Insert entry i among those h apart to its left, by big-bucket size. */
  method InsertBig(order: array<int>, ftab: array<int>, i: int, h: int, ghost sizes: seq<int>)
    requires order.Length == 256 && IsPerm(order[..]) && ftab.Length == KEYS + 1 && ftab != order && 1 <= h <= i < 256
    requires sizes == BigSizes(ftab[..]) && (h == 1 ==> KeySorted(order[..], sizes, 0, i - 1))
    modifies order
    ensures IsPerm(order[..]) && (h == 1 ==> KeySorted(order[..], sizes, 0, i))
  {
    var vv := order[i];
    var j; ghost var u;
    j, u := MakeRoomBig(order, ftab, i, h, vv, sizes);
    order[j] := vv;
    assert order[..] == u;
    PermutesIsPerm(old(order[..]), u, 0, 256);
    if h == 1 {
      InsertSorted(old(order[..]), u, sizes, 0, j, i);
    }
  }

  /** The big buckets, least full first. */
  method RunningOrder(ftab: array<int>) returns (order: array<int>)
    requires ftab.Length == KEYS + 1
    ensures fresh(order) && order.Length == 256 && IsPerm(order[..]) && KeySorted(order[..], BigSizes(ftab[..]), 0, 255)
  {
    ghost var sizes := BigSizes(ftab[..]);
    order := new int[256](i => i);
    var h := 364;
    while h != 1
      invariant h in {364, 121, 40, 13, 4, 1} && IsPerm(order[..])
      invariant h == 1 ==> KeySorted(order[..], sizes, 0, 255)
    {
      h := h / 3;
      for i := h to 256
        invariant IsPerm(order[..]) && (h == 1 ==> KeySorted(order[..], sizes, 0, i - 1))
      {
        InsertBig(order, ftab, i, h, sizes);
      }
    }
  }

  // ---- Step 1: sort the small buckets of big bucket ss ----

  /** Sort bucket sb unless it is flagged, then flag it. */
  method SortSmall(ptr: array<int>, block: array<byte>, quadrant: array<int>, ftab: array<int>, n: int, sb: int, budget0: int,
                   ghost b: seq<byte>, ghost rank: seq<int>, ghost done: seq<bool>)
    returns (budget: int)
    requires Setting(block, quadrant, n, b, rank) && ptr.Length == n && ftab.Length == KEYS + 1 && budget0 >= 0
    requires ptr != quadrant && ptr != ftab && quadrant != ftab
    requires Progress(b, rank, ptr[..], ftab[..], done) && 0 <= sb < KEYS
    modifies ptr, ftab
    ensures budget >= 0 ==> Progress(b, rank, ptr[..], ftab[..], done) && IsSet(ftab[sb])
    ensures budget >= 0 ==> forall k :: 0 <= k <= KEYS && IsSet(old(ftab[k])) ==> IsSet(ftab[k])
  {
    ghost var p, ft := ptr[..], ftab[..];
    budget := budget0;
    StartMono(b, sb + 1, KEYS);
    StartMono(b, sb, sb + 1);
    assert Cleared(ft[sb]) == Start(b, sb) && Cleared(ft[sb + 1]) == Start(b, sb + 1);
    if !IsSet(ftab[sb]) {
      var lo, hi := Cleared(ftab[sb]), Cleared(ftab[sb + 1]) - 1;
      if hi > lo {
        BucketAgrees(b, p, sb);
        budget := QSort3(ptr, block, quadrant, n, lo, hi, 2, budget, b, rank);
        if budget < 0 { return; }
      }
    }
    BucketDone(b, rank, p, ptr[..], ft, done, sb);
    ftab[sb] := WithMask(ftab[sb]);
    assert ftab[..] == ft[sb := WithMask(ft[sb])];
  }

  /** Sorting one bucket and flagging it is progress. */
  lemma BucketDone(b: seq<byte>, rank: seq<int>, p: seq<int>, p': seq<int>, ft: seq<int>, done: seq<bool>, sb: nat)
    requires Progress(b, rank, p, ft, done) && sb < KEYS && Start(b, sb) <= Start(b, sb + 1)
    requires PermutesRange(p, p', Start(b, sb), Start(b, sb + 1)) && BucketSorted(b, rank, p', sb)
    ensures Progress(b, rank, p', ft[sb := WithMask(ft[sb])], done)
  {
    InBucketsPermuted(b, p, p', sb);
    OthersSorted(b, rank, p, p', ft, sb);
  }

  lemma OthersSorted(b: seq<byte>, rank: seq<int>, p: seq<int>, p': seq<int>, ft: seq<int>, sb: nat)
    requires sb < KEYS && Start(b, sb) <= Start(b, sb + 1) && PermutesRange(p, p', Start(b, sb), Start(b, sb + 1))
    requires |ft| == KEYS + 1
    requires forall k :: 0 <= k < KEYS && IsSet(ft[k]) ==> BucketSorted(b, rank, p, k)
    ensures forall k :: 0 <= k < KEYS && k != sb && IsSet(ft[k]) ==> BucketSorted(b, rank, p', k)
  {
    forall k | 0 <= k < KEYS && k != sb && IsSet(ft[k])
      ensures BucketSorted(b, rank, p', k)
    {
      assert BucketSorted(b, rank, p, k);
      if k < sb { StartMono(b, k + 1, sb); } else { StartMono(b, sb + 1, k); }
    }
  }

  method SortBig(ptr: array<int>, block: array<byte>, quadrant: array<int>, ftab: array<int>, n: int, ss: int, budget0: int,
                 ghost b: seq<byte>, ghost rank: seq<int>, ghost done: seq<bool>)
    returns (budget: int)
    requires Setting(block, quadrant, n, b, rank) && ptr.Length == n && ftab.Length == KEYS + 1 && budget0 >= 0
    requires ptr != quadrant && ptr != ftab && quadrant != ftab
    requires Progress(b, rank, ptr[..], ftab[..], done) && 0 <= ss < 256
    modifies ptr, ftab
    ensures budget >= 0 ==> Progress(b, rank, ptr[..], ftab[..], done)
    ensures budget >= 0 ==> forall k :: 256 * ss <= k < 256 * ss + 256 && k != 256 * ss + ss ==> IsSet(ftab[k])
  {
    budget := budget0;
    for j := 0 to 256
      invariant budget >= 0 && Progress(b, rank, ptr[..], ftab[..], done)
      invariant forall k :: 256 * ss <= k < 256 * ss + j && k != 256 * ss + ss ==> IsSet(ftab[k])
    {
      if j != ss {
        budget := SortSmall(ptr, block, quadrant, ftab, n, 256 * ss + j, budget, b, rank, done);
        if budget < 0 { return; }
      }
    }
  }

  // ---- Step 2: the pointer scans ----

  /** Big bucket ss is sorted but for its bucket [ss, ss]. */
  ghost predicate ReadyToScan(b: seq<byte>, rank: seq<int>, p: seq<int>, done: seq<bool>, ss: int) {
    && |b| >= 2 && Ranked(b, rank) && InBuckets(b, p) && |done| == 256 && 0 <= ss < 256 && !done[ss]
    && forall k :: 256 * ss <= k < 256 * ss + 256 && k != 256 * ss + ss ==> BucketSorted(b, rank, p, k)
  }

  lemma LeftStart(b: seq<byte>, rank: seq<int>, p: seq<int>, done: seq<bool>, ss: int, cs: seq<int>)
    requires ReadyToScan(b, rank, p, done, ss) && |cs| == 256
    requires forall c :: 0 <= c < 256 ==> cs[c] == Start(b, 256 * c + ss)
    ensures Start(b, 256 * ss) <= Start(b, 256 * ss + ss) <= |p|
    ensures var l0 := LeftSeeds(b, p, ss);
            && Context(b, rank, ss, |p|, LeftLanes(b, ss), done, true, l0, [])
            && Scanning(b, rank, ss, p, LeftLanes(b, ss), cs, done, true, l0, l0, 0, [])
  {
    StartMono(b, 256 * ss, 256 * ss + ss);
    LeftLanesApart(b, ss);
    LeftRoomy(b, ss, done);
    LeftSeedsOk(b, rank, p, ss);
    StartScanning(b, rank, ss, p, LeftLanes(b, ss), cs, done, true, LeftSeeds(b, p, ss), []);
  }

  /** The buckets [ss, d], d != ss, are untouched by the left scan. */
  lemma SeedsKept(b: seq<byte>, p: seq<int>, p1: seq<int>, done: seq<bool>, ss: int, i: int)
    requires InBuckets(b, p) && |p1| == |p| && |done| == 256 && 0 <= ss < 256 && Kept(p, p1, LeftLanes(b, ss), done)
    requires Start(b, 256 * ss + ss + 1) <= i < Start(b, 256 * ss + 256) <= |p|
    ensures p1[i] == p[i]
  {
    RunHolds(b, p, 256 * ss + ss + 1, 256 * ss + 256, i);
    OutsideOther(b, p, ss, done, i);
  }

  lemma RightContext(b: seq<byte>, rank: seq<int>, p: seq<int>, p1: seq<int>, done: seq<bool>, ss: int, cs: seq<int>, l0: seq<int>, l: seq<int>)
    requires ReadyToScan(b, rank, p, done, ss) && |cs| == 256 && |p1| == |p|
    requires Seeds(b, rank, ss, l0) && Scanning(b, rank, ss, p1, LeftLanes(b, ss), cs, done, true, l0, l, |l|, [])
    requires Start(b, 256 * ss + ss + 1) <= Start(b, 256 * ss + 256) <= |p|
    ensures Context(b, Reversed(rank), ss, |p|, RightLanes(b, ss, done, cs), done, false, RightSeeds(b, p, ss), l)
  {
    RightSeedsOk(b, rank, p, ss);
    RightLanesApart(b, ss, p1, done, cs, l);
    FinishedRooted(b, rank, ss, l0, l, []);
  }

  lemma RightHeld(b: seq<byte>, p: seq<int>, p1: seq<int>, done: seq<bool>, ss: int)
    requires InBuckets(b, p) && |p1| == |p| && |done| == 256 && 0 <= ss < 256 && Kept(p, p1, LeftLanes(b, ss), done)
    requires Start(b, 256 * ss + ss + 1) <= Start(b, 256 * ss + 256) <= |p|
    ensures Holds(p1, false, Start(b, 256 * ss + 256) - 1, RightSeeds(b, p, ss))
  {
    forall i {:trigger p1[i]} | Start(b, 256 * ss + ss + 1) <= i < Start(b, 256 * ss + 256)
      ensures p1[i] == p[i]
    {
      SeedsKept(b, p, p1, done, ss, i);
    }
  }

  lemma RightStart(b: seq<byte>, rank: seq<int>, p: seq<int>, p1: seq<int>, done: seq<bool>, ss: int, cs: seq<int>, ce: seq<int>, l0: seq<int>, l: seq<int>)
    requires ReadyToScan(b, rank, p, done, ss) && |cs| == |ce| == 256 && |p1| == |p|
    requires Seeds(b, rank, ss, l0) && (forall i :: 0 <= i < |l0| ==> b[Next(|b|, l0[i])] < ss)
    requires Scanning(b, rank, ss, p1, LeftLanes(b, ss), cs, done, true, l0, l, |l|, []) && Kept(p, p1, LeftLanes(b, ss), done)
    requires Start(b, 256 * ss + ss + 1) <= Start(b, 256 * ss + 256) <= |p|
    requires forall c :: 0 <= c < 256 ==> ce[c] == Start(b, 256 * c + ss + 1) - 1
    ensures Scanning(b, Reversed(rank), ss, p1, RightLanes(b, ss, done, cs), ce, done, false, RightSeeds(b, p, ss), RightSeeds(b, p, ss), 0, l)
  {
    var r0 := RightSeeds(b, p, ss);
    RightSeedsOk(b, rank, p, ss);
    RightLanesApart(b, ss, p1, done, cs, l);
    RightHeld(b, p, p1, done, ss);
    forall i | 0 <= i < |r0|
      ensures r0[i] !in l
    {
      RightSeedNotLeft(b, rank, ss, l0, l, r0[i]);
    }
    StartScanning(b, Reversed(rank), ss, p1, RightLanes(b, ss, done, cs), ce, done, false, r0, l);
  }

  lemma RightSeedNotLeft(b: seq<byte>, rank: seq<int>, ss: int, l0: seq<int>, l: seq<int>, x: int)
    requires Seeds(b, rank, ss, l0) && Finished(b, rank, ss, l0, l, []) && 0 <= x < |b| && b[Next(|b|, x)] > ss
    requires forall i :: 0 <= i < |l0| ==> b[Next(|b|, l0[i])] < ss
    ensures x !in l
  {
    forall i | 0 <= i < |l|
      ensures b[Next(|b|, l[i])] <= ss
    {
      if i >= |l0| { SecondBytes(b, rank, ss, l0, l, [], i); } else { assert l[i] == l0[i]; }
    }
  }

  /** The queues of both scans together satisfy what the outcome lemmas ask. */
  lemma QueuesScanned(b: seq<byte>, rank: seq<int>, p: seq<int>, done: seq<bool>, ss: int, l: seq<int>, r: seq<int>)
    requires ReadyToScan(b, rank, p, done, ss)
    requires Start(b, 256 * ss) <= Start(b, 256 * ss + ss) <= |p| && Start(b, 256 * ss + ss + 1) <= Start(b, 256 * ss + 256) <= |p|
    requires Finished(b, rank, ss, LeftSeeds(b, p, ss), l, [])
    requires Finished(b, Reversed(rank), ss, RightSeeds(b, p, ss), r, l)
    ensures Scanned(b, rank, ss, LeftSeeds(b, p, ss), l, RightSeeds(b, p, ss), r)
  {
    LeftSeedsOk(b, rank, p, ss);
    RightSeedsOk(b, rank, p, ss);
    forall x | 0 <= x < |b| && b[x] == ss && b[Next(|b|, x)] != ss
      ensures x in LeftSeeds(b, p, ss) || x in RightSeeds(b, p, ss)
    {
      SeedsComplete(b, p, ss, x);
    }
  }

  /** The buckets [c, ss] have been put in order and nothing else has changed. */
  ghost predicate ScanDone(b: seq<byte>, rank: seq<int>, p: seq<int>, p': seq<int>, done: seq<bool>, ss: int) {
    && InBuckets(b, p) && InBuckets(b, p') && |done| == 256 && 0 <= ss < 256
    && (forall c :: 0 <= c < 256 && !done[c] ==> BucketSorted(b, rank, p', 256 * c + ss))
    && forall i {:trigger p'[i]} :: 0 <= i < |p| && (b[Next(|b|, p[i])] != ss || done[b[p[i]]]) ==> p'[i] == p[i]
  }

  lemma MixedDone(b: seq<byte>, rank: seq<int>, p: seq<int>, p': seq<int>, done: seq<bool>, ss: int,
                  l0: seq<int>, l: seq<int>, r0: seq<int>, r: seq<int>, y: int)
    requires Scanned(b, rank, ss, l0, l, r0, r) && InBuckets(b, p) && AllDealt(b, p, p', ss, done, l, r)
    requires 0 <= y < |b| && b[y] != ss
    ensures ScanDone(b, rank, p, p', done, ss)
  {
    DealtInBuckets(b, rank, p, p', ss, done, l0, l, r0, r, y);
    forall c | 0 <= c < 256 && !done[c]
      ensures BucketSorted(b, rank, p', 256 * c + ss)
    {
      DealtSorted(b, rank, p', ss, l0, l, r0, r, c);
    }
  }

  lemma UniformDone(b: seq<byte>, rank: seq<int>, p: seq<int>, done: seq<bool>, ss: int)
    requires Ranked(b, rank) && InBuckets(b, p) && |done| == 256 && 0 <= ss < 256 && forall i :: 0 <= i < |b| ==> b[i] == ss
    ensures ScanDone(b, rank, p, p, done, ss)
  {
    forall c | 0 <= c < 256
      ensures BucketSorted(b, rank, p, 256 * c + ss)
    {
      UniformSorted(b, rank, p, ss, 256 * c + ss);
    }
  }

  lemma UniformScans(b: seq<byte>, rank: seq<int>, p: seq<int>, done: seq<bool>, ss: int, cs: seq<int>, ce: seq<int>, l: seq<int>, r: seq<int>)
    requires ReadyToScan(b, rank, p, done, ss) && |cs| == |ce| == 256 && forall i :: 0 <= i < |b| ==> b[i] == ss
    requires Start(b, 256 * ss) <= Start(b, 256 * ss + ss) <= |p| && Start(b, 256 * ss + ss + 1) <= Start(b, 256 * ss + 256) <= |p|
    requires Finished(b, rank, ss, LeftSeeds(b, p, ss), l, []) && Finished(b, Reversed(rank), ss, RightSeeds(b, p, ss), r, l)
    ensures l == [] && r == []
  {
    UniformWhole(b, p, ss);
    assert LeftSeeds(b, p, ss) == [];
    assert RightSeeds(b, p, ss) == [];
  }

  /** After both scans: the buckets [c, ss] are in order, and the two ends of
      bucket [ss, ss] met, or the block is one byte repeated. */
  lemma ScansMeet(b: seq<byte>, rank: seq<int>, p: seq<int>, p1: seq<int>, p2: seq<int>, done: seq<bool>, ss: int, cs: seq<int>, ce: seq<int>,
                  l: seq<int>, r: seq<int>)
    requires ReadyToScan(b, rank, p, done, ss) && |p1| == |p2| == |p|
    requires Start(b, 256 * ss) <= Start(b, 256 * ss + ss) <= |p| && Start(b, 256 * ss + ss + 1) <= Start(b, 256 * ss + 256) <= |p|
    requires Scanning(b, rank, ss, p1, LeftLanes(b, ss), cs, done, true, LeftSeeds(b, p, ss), l, |l|, []) && Kept(p, p1, LeftLanes(b, ss), done)
    requires Scanning(b, Reversed(rank), ss, p2, RightLanes(b, ss, done, cs), ce, done, false, RightSeeds(b, p, ss), r, |r|, l)
    requires Kept(p1, p2, RightLanes(b, ss, done, cs), done)
    requires (l == [] ==> p1 == p) && (r == [] ==> p2 == p1)
    ensures ScanDone(b, rank, p, p2, done, ss)
    ensures cs[ss] - 1 == ce[ss] || (cs[ss] == 0 && ce[ss] == |p| - 1)
  {
    if y :| 0 <= y < |b| && b[y] != ss {
      QueuesScanned(b, rank, p, done, ss, l, r);
      BothScans(b, rank, ss, p, p1, p2, done, cs, ce, LeftSeeds(b, p, ss), l, RightSeeds(b, p, ss), r, y);
      MixedDone(b, rank, p, p2, done, ss, LeftSeeds(b, p, ss), l, RightSeeds(b, p, ss), r, y);
    } else {
      UniformScans(b, rank, p, done, ss, cs, ce, l, r);
      UniformDone(b, rank, p, done, ss);
      UniformMeet(b, p, p1, p2, done, ss, cs, ce);
    }
  }

  lemma UniformMeet(b: seq<byte>, p: seq<int>, p1: seq<int>, p2: seq<int>, done: seq<bool>, ss: int, cs: seq<int>, ce: seq<int>)
    requires |b| > 0 && InBuckets(b, p) && 0 <= ss < 256 && |done| == |cs| == |ce| == 256 && !done[ss]
    requires forall i :: 0 <= i < |b| ==> b[i] == ss
    requires Filling(b, p1, LeftLanes(b, ss), cs, done, true, [], 0) && Filling(b, p2, RightLanes(b, ss, done, cs), ce, done, false, [], 0)
    ensures cs[ss] == 0 && ce[ss] == |b| - 1
  {
    UniformWhole(b, p, ss);
    LaneIs(b, p1, LeftLanes(b, ss), cs, done, true, [], ss);
    LaneIs(b, p2, RightLanes(b, ss, done, cs), ce, done, false, [], ss);
  }

  method CopyBounds(ftab: array<int>, ss: int, ghost b: seq<byte>) returns (copyStart: array<int>, copyEnd: array<int>)
    requires ftab.Length == KEYS + 1 && TableOk(b, ftab[..]) && 0 <= ss < 256
    ensures fresh(copyStart) && fresh(copyEnd) && copyStart != copyEnd && copyStart.Length == copyEnd.Length == 256
    ensures forall c :: 0 <= c < 256 ==> copyStart[c] == Start(b, 256 * c + ss) && copyEnd[c] == Start(b, 256 * c + ss + 1) - 1
  {
    copyStart, copyEnd := new int[256], new int[256];
    ghost var ft := ftab[..];
    for j := 0 to 256
      invariant ftab[..] == ft
      invariant forall c :: 0 <= c < j ==> copyStart[c] == Start(b, 256 * c + ss) && copyEnd[c] == Start(b, 256 * c + ss + 1) - 1
    {
      assert Cleared(ft[256 * j + ss]) == Start(b, 256 * j + ss) && Cleared(ft[256 * j + ss + 1]) == Start(b, 256 * j + ss + 1);
      copyStart[j] := Cleared(ftab[256 * j + ss]);
      copyEnd[j] := Cleared(ftab[256 * j + ss + 1]) - 1;
    }
  }

  method PointerScans(ptr: array<int>, block: array<byte>, ftab: array<int>, done: seq<bool>, ss: int, n: int, ghost b: seq<byte>, ghost rank: seq<int>)
    requires n == |b| == ptr.Length && Mirrored(block[..], b) && ptr != ftab && ftab.Length == KEYS + 1
    requires ReadyToScan(b, rank, ptr[..], done, ss) && TableOk(b, ftab[..])
    modifies ptr
    ensures ScanDone(b, rank, old(ptr[..]), ptr[..], done, ss)
  {
    ghost var p := ptr[..];
    var copyStart, copyEnd := CopyBounds(ftab, ss, b);
    assert Cleared(ftab[..][256 * ss]) == Start(b, 256 * ss) && Cleared(ftab[..][256 * ss + 256]) == Start(b, 256 * ss + 256);
    var first, last := Cleared(ftab[256 * ss]), Cleared(ftab[256 * ss + 256]) - 1;
    LeftStart(b, rank, p, done, ss, copyStart[..]);
    ghost var l := Scan(ptr, block[..], done, copyStart, true, first, ss, n, b, rank, LeftLanes(b, ss), LeftSeeds(b, p, ss), []);
    ghost var p1, cs := ptr[..], copyStart[..];
    StartMono(b, 256 * ss + ss + 1, 256 * ss + 256);
    LeftSeedsOk(b, rank, p, ss);
    RightContext(b, rank, p, p1, done, ss, cs, LeftSeeds(b, p, ss), l);
    RightStart(b, rank, p, p1, done, ss, cs, copyEnd[..], LeftSeeds(b, p, ss), l);
    ghost var r := Scan(ptr, block[..], done, copyEnd, false, last, ss, n, b, Reversed(rank), RightLanes(b, ss, done, cs), RightSeeds(b, p, ss), l);
    ScansMeet(b, rank, p, p1, ptr[..], done, ss, cs, copyEnd[..], l, r);
    assert copyStart[ss] - 1 == copyEnd[ss] || (copyStart[ss] == 0 && copyEnd[ss] == n - 1);  // internal error 1007
  }

  method FlagColumn(ftab: array<int>, ss: int)
    requires ftab.Length == KEYS + 1 && 0 <= ss < 256
    modifies ftab
    ensures forall k :: 0 <= k <= KEYS ==> ftab[k] == if k % 256 == ss && k < KEYS then WithMask(old(ftab[k])) else old(ftab[k])
  {
    for j := 0 to 256
      invariant forall k :: 0 <= k <= KEYS ==> ftab[k] == if k % 256 == ss && k < 256 * j then WithMask(old(ftab[k])) else old(ftab[k])
    {
      ftab[256 * j + ss] := WithMask(ftab[256 * j + ss]);
    }
  }

  lemma KeptBucketSorted(b: seq<byte>, rank: seq<int>, p: seq<int>, p': seq<int>, done: seq<bool>, ss: int, k: nat)
    requires ScanDone(b, rank, p, p', done, ss) && k < KEYS && BucketSorted(b, rank, p, k)
    requires k % 256 != ss || done[k / 256]
    ensures BucketSorted(b, rank, p', k)
  {
    forall i | Start(b, k) <= i <= Start(b, k + 1) - 1
      ensures p'[i] == p[i]
    {
      BucketHolds(b, p, k, i);
    }
  }

  lemma ColumnSorted(b: seq<byte>, rank: seq<int>, p: seq<int>, p': seq<int>, ft: seq<int>, done: seq<bool>, ss: int, k: nat)
    requires Progress(b, rank, p, ft, done) && ScanDone(b, rank, p, p', done, ss) && k < KEYS
    requires IsSet(ft[k]) || k % 256 == ss
    ensures BucketSorted(b, rank, p', k)
  {
    var c := k / 256;
    if k % 256 == ss && !done[c] {
      ColumnBucket(b, rank, p, p', done, ss, c, k);
    } else {
      KeptBucketSorted(b, rank, p, p', done, ss, k);
    }
  }

  lemma ColumnBucket(b: seq<byte>, rank: seq<int>, p: seq<int>, p': seq<int>, done: seq<bool>, ss: int, c: int, k: nat)
    requires ScanDone(b, rank, p, p', done, ss) && 0 <= c < 256 && !done[c] && k == 256 * c + ss
    ensures BucketSorted(b, rank, p', k)
  {
  }

  /** Big bucket ss is done: all its buckets and all buckets [c, ss] are sorted and flagged. */
  lemma BigDone(b: seq<byte>, rank: seq<int>, p: seq<int>, p': seq<int>, ft: seq<int>, ft': seq<int>, done: seq<bool>, ss: int)
    requires Progress(b, rank, p, ft, done) && ScanDone(b, rank, p, p', done, ss) && |ft'| == |ft|
    requires forall k :: 256 * ss <= k < 256 * ss + 256 && k != 256 * ss + ss ==> IsSet(ft[k])
    requires forall k :: 0 <= k <= KEYS ==> ft'[k] == if k % 256 == ss && k < KEYS then WithMask(ft[k]) else ft[k]
    ensures Progress(b, rank, p', ft', done[ss := true])
  {
    forall k | 0 <= k < KEYS && IsSet(ft'[k])
      ensures BucketSorted(b, rank, p', k)
    {
      ColumnSorted(b, rank, p, p', ft, done, ss, k);
    }
  }

  // ---- Step 3: the quadrant cache ----

  function Shr(x: nat, s: nat): nat
    decreases s
  {
    if s == 0 then x else Shr(x / 2, s - 1)
  }

  lemma {:induction false} ShrMono(x: nat, y: nat, s: nat)
    requires x <= y
    ensures Shr(x, s) <= Shr(y, s)
    decreases s
  {
    if s > 0 {
      ShrMono(x / 2, y / 2, s - 1);
    }
  }

  lemma {:induction false} ShrStep(x: nat, s: nat)
    ensures Shr(x, s + 1) == Shr(x, s) / 2
    decreases s
  {
    if s > 0 {
      ShrStep(x / 2, s - 1);
    }
  }

  /** Entry t of the big bucket gets the t-th place, scaled to 16 bits. */
  ghost predicate Cached(p: seq<int>, q: seq<int>, start: int, size: int, shifts: nat, from: int) {
    && 0 <= start && 0 <= from && start + size <= |p|
    && forall t {:trigger p[t]} :: start + from <= t < start + size ==> 0 <= p[t] < |p| <= |q| && q[p[t]] == Shr(t - start, shifts)
  }

  method FindShift(size: nat) returns (shifts: nat)
    ensures Shr(size, shifts) <= 65534
  {
    shifts := 0;
    while Shr(size, shifts) > 65534
      decreases Shr(size, shifts)
    {
      ShrStep(size, shifts);
      shifts := shifts + 1;
    }
  }

  method UpdateQuadrant(ptr: array<int>, quadrant: array<int>, n: int, start: int, size: int, ss: int, ghost b: seq<byte>)
    requires ptr != quadrant && n == |b| == ptr.Length && OVERSHOOT < n && quadrant.Length == n + OVERSHOOT
    requires InBuckets(b, ptr[..]) && 0 <= ss < 256 && start == Start(b, 256 * ss) && start + size == Start(b, 256 * ss + 256)
    requires 0 <= size && start + size <= n
    requires forall x :: 0 <= x < OVERSHOOT ==> quadrant[n + x] == quadrant[x]
    modifies quadrant
    ensures exists shifts: nat :: Cached(ptr[..], quadrant[..], start, size, shifts, 0)
    ensures forall x :: 0 <= x < n && b[x] != ss ==> quadrant[x] == old(quadrant[x])
    ensures forall x :: 0 <= x < OVERSHOOT ==> quadrant[n + x] == quadrant[x]
  {
    var shifts := FindShift(size);
    if size > 0 { ShrMono(size - 1, size, shifts); }
    assert size > 0 ==> Shr(size - 1, shifts) <= 65535;  // internal error 1002
    ghost var p := ptr[..];
    for j := size downto 0
      invariant Cached(p, quadrant[..], start, size, shifts, j)
      invariant forall x :: 0 <= x < n && b[x] != ss ==> quadrant[x] == old(quadrant[x])
      invariant forall x :: 0 <= x < OVERSHOOT ==> quadrant[n + x] == quadrant[x]
    {
      RunHolds(b, p, 256 * ss, 256 * ss + 256, start + j);
      SetQuadrant(quadrant, n, ptr[start + j], Shr(j, shifts));
    }
    assert ptr[..] == p;
  }

  /** Set the descriptor of a2update, and its copy in the overshoot area. */
  method SetQuadrant(quadrant: array<int>, n: int, a2update: int, qVal: int)
    requires OVERSHOOT < n && quadrant.Length == n + OVERSHOOT && 0 <= a2update < n
    requires forall x :: 0 <= x < OVERSHOOT ==> quadrant[n + x] == quadrant[x]
    modifies quadrant
    ensures quadrant[a2update] == qVal
    ensures forall x :: 0 <= x < n && x != a2update ==> quadrant[x] == old(quadrant[x])
    ensures forall x :: 0 <= x < OVERSHOOT ==> quadrant[n + x] == quadrant[x]
  {
    quadrant[a2update] := qVal;
    if a2update < OVERSHOOT { quadrant[a2update + n] := qVal; }
  }

  lemma QuadrantUpdated(b: seq<byte>, rank: seq<int>, p: seq<int>, q: seq<int>, q': seq<int>, ss: int, start: int, size: int)
    requires Ranked(b, rank) && InBuckets(b, p) && QuadrantOk(b, q) && |q'| == |q| && 0 <= ss < 256
    requires start == Start(b, 256 * ss) && start + size == Start(b, 256 * ss + 256) <= |p|
    requires KeySorted(p, rank, start, start + size - 1)
    requires exists shifts: nat :: Cached(p, q', start, size, shifts, 0)
    requires forall x :: 0 <= x < |b| && b[x] != ss ==> q'[x] == q[x]
    requires forall x :: 0 <= x < OVERSHOOT ==> q'[|b| + x] == q'[x]
    ensures QuadrantOk(b, q')
  {
    forall x, y | 0 <= x < |b| && 0 <= y < |b| && b[x] == b[y] && q'[x] < q'[y]
      ensures RotLe(b, x, y)
    {
      if b[x] == ss {
        CachedOrder(b, rank, p, q', ss, start, size, x, y);
      }
    }
  }

  lemma CachedOrder(b: seq<byte>, rank: seq<int>, p: seq<int>, q: seq<int>, ss: int, start: int, size: int, x: int, y: int)
    requires Ranked(b, rank) && InBuckets(b, p) && 0 <= ss < 256 && |b| <= |q|
    requires start == Start(b, 256 * ss) && start + size == Start(b, 256 * ss + 256) <= |p|
    requires KeySorted(p, rank, start, start + size - 1)
    requires exists shifts: nat :: Cached(p, q, start, size, shifts, 0)
    requires 0 <= x < |b| && 0 <= y < |b| && b[x] == b[y] == ss && q[x] < q[y]
    ensures RotLe(b, x, y)
  {
    var shifts: nat :| Cached(p, q, start, size, shifts, 0);
    PermOnto(p, x);
    PermOnto(p, y);
    var i :| 0 <= i < |p| && p[i] == x;
    var j :| 0 <= j < |p| && p[j] == y;
    RunHolds(b, p, 256 * ss, 256 * ss + 256, i);
    RunHolds(b, p, 256 * ss, 256 * ss + 256, j);
    if j <= i { ShrMono(j - start, i - start, shifts); }
    assert KeyLe(rank, p[i], p[j]);
  }

  // ---- The sorter ----

  /** One big bucket: sort its small buckets, then scan it. */
  method DoBig(ptr: array<int>, block: array<byte>, quadrant: array<int>, ftab: array<int>, done: seq<bool>, n: int, ss: int, budget0: int,
               ghost b: seq<byte>, ghost rank: seq<int>)
    returns (budget: int)
    requires Setting(block, quadrant, n, b, rank) && ptr.Length == n && ftab.Length == KEYS + 1 && budget0 >= 0
    requires ptr != quadrant && ptr != ftab && quadrant != ftab
    requires Progress(b, rank, ptr[..], ftab[..], done) && 0 <= ss < 256 && !done[ss]
    modifies ptr, ftab
    ensures budget >= 0 ==> Progress(b, rank, ptr[..], ftab[..], done[ss := true])
  {
    budget := SortBig(ptr, block, quadrant, ftab, n, ss, budget0, b, rank, done);
    if budget < 0 { return; }
    ghost var p, ft := ptr[..], ftab[..];
    PointerScans(ptr, block, ftab, done, ss, n, b, rank);
    FlagColumn(ftab, ss);
    BigDone(b, rank, p, ptr[..], ft, ftab[..], done, ss);
  }

  /** Record the order of a big bucket that is done in the quadrant cache. */
  method CacheBig(ptr: array<int>, block: array<byte>, quadrant: array<int>, ftab: array<int>, ghost done: seq<bool>, n: int, ss: int,
                  ghost b: seq<byte>, ghost rank: seq<int>)
    requires Setting(block, quadrant, n, b, rank) && ptr.Length == n && ftab.Length == KEYS + 1
    requires ptr != quadrant && ptr != ftab && quadrant != ftab
    requires Progress(b, rank, ptr[..], ftab[..], done) && 0 <= ss < 256 && done[ss]
    modifies quadrant
    ensures Setting(block, quadrant, n, b, rank)
  {
    ghost var p, ft, q := ptr[..], ftab[..], quadrant[..];
    StartMono(b, 256 * ss, 256 * ss + 256);
    assert Cleared(ft[256 * ss]) == Start(b, 256 * ss) && Cleared(ft[256 * ss + 256]) == Start(b, 256 * ss + 256);
    var start := Cleared(ftab[256 * ss]);
    var size := Cleared(ftab[256 * ss + 256]) - start;
    BigSorted(b, rank, p, ft, done, ss);
    UpdateQuadrant(ptr, quadrant, n, start, size, ss, b);
    QuadrantUpdated(b, rank, p, q, quadrant[..], ss, start, size);
  }

  lemma BigSorted(b: seq<byte>, rank: seq<int>, p: seq<int>, ft: seq<int>, done: seq<bool>, ss: int)
    requires |b| >= 2 && Ranked(b, rank) && Progress(b, rank, p, ft, done) && 0 <= ss < 256 && done[ss]
    ensures KeySorted(p, rank, Start(b, 256 * ss), Start(b, 256 * ss + 256) - 1)
  {
    forall k | 256 * ss <= k < 256 * ss + 256
      ensures BucketSorted(b, rank, p, k)
    {
      assert k / 256 == ss;
      assert IsSet(ft[k]);
    }
    RunSorted(b, rank, p, 256 * ss, 256 * ss + 256);
  }

  lemma AllDone(b: seq<byte>, rank: seq<int>, p: seq<int>, ft: seq<int>, done: seq<bool>)
    requires |b| >= 2 && Ranked(b, rank) && Progress(b, rank, p, ft, done) && forall c :: 0 <= c < 256 ==> done[c]
    ensures RotationSorted(b, p)
  {
    forall k | 0 <= k < KEYS
      ensures BucketSorted(b, rank, p, k)
    {
      assert done[k / 256];
      assert IsSet(ft[k]);
    }
    AllSorted(b, rank, p);
  }

  /** Sort all rotations of the block, unless the budget runs out first. */
  method Sort(ptr: array<int>, block: array<byte>, quadrant: array<int>, ftab: array<int>, n: int, budget0: int)
    returns (budget: int)
    requires OVERSHOOT < n == ptr.Length <= MAX_BLOCK && block.Length == quadrant.Length == n + OVERSHOOT && ftab.Length == KEYS + 1
    requires ptr != quadrant && ptr != ftab && quadrant != ftab && budget0 >= 0
    modifies ptr, block, quadrant, ftab
    ensures block[..n] == old(block[..n])
    ensures budget >= 0 ==> RotationSorted(old(block[..n]), ptr[..])
  {
    ghost var b := block[..n];
    ghost var rank := Rank(b);
    RankOk(b);
    SetUp(ptr, block, quadrant, ftab, n);
    var order := RunningOrder(ftab);
    budget := SortBuckets(ptr, block, quadrant, ftab, order[..], n, budget0, b, rank);
  }

  method SortBuckets(ptr: array<int>, block: array<byte>, quadrant: array<int>, ftab: array<int>, order: seq<int>, n: int, budget0: int,
                     ghost b: seq<byte>, ghost rank: seq<int>)
    returns (budget: int)
    requires Setting(block, quadrant, n, b, rank) && ptr.Length == n && ftab.Length == KEYS + 1 && budget0 >= 0
    requires ptr != quadrant && ptr != ftab && quadrant != ftab && |order| == 256 && IsPerm(order)
    requires InBuckets(b, ptr[..]) && TableOk(b, ftab[..]) && forall k :: 0 <= k <= KEYS ==> !IsSet(ftab[k])
    modifies ptr, quadrant, ftab
    ensures budget >= 0 ==> RotationSorted(b, ptr[..])
  {
    budget := budget0;
    var bigDone := seq(256, _ => false);
    for i := 0 to 256
      invariant budget >= 0 && Setting(block, quadrant, n, b, rank)
      invariant Progress(b, rank, ptr[..], ftab[..], bigDone)
      invariant forall t :: 0 <= t < i ==> bigDone[order[t]]
      invariant forall t :: i <= t < 256 ==> !bigDone[order[t]]
    {
      var ss := order[i];
      assert !bigDone[ss];  // internal error 1006
      budget := DoBig(ptr, block, quadrant, ftab, bigDone, n, ss, budget, b, rank);
      if budget < 0 { return; }
      bigDone := bigDone[ss := true];
      if i < 255 {
        CacheBig(ptr, block, quadrant, ftab, bigDone, n, ss, b, rank);
      }
    }
    forall c | 0 <= c < 256
      ensures bigDone[c]
    {
      PermOnto(order, c);
    }
    AllDone(b, rank, ptr[..], ftab[..], bigDone);
  }
}
