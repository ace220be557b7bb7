/** What the two pointer scans of big bucket ss leave behind. */
module ScanOutcome {
  import opened Permutations
  import opened Rotations
  import opened QuickSort
  import opened MainQSort
  import opened PointerScan
  import opened Buckets

  /** The rank order read backwards. */
  ghost function Reversed(rank: seq<int>): (r: seq<int>)
    ensures |r| == |rank|
    ensures forall x :: 0 <= x < |rank| ==> r[x] == -rank[x]
  {
    seq(|rank|, x requires 0 <= x < |rank| => -rank[x])
  }

  lemma RankOrderOk(b: seq<byte>, rank: seq<int>)
    requires |b| >= 2 && Ranked(b, rank)
    ensures OrderOk(b, rank) && OrderOk(b, Reversed(rank))
  {
    forall x, y | 0 <= x < |b| && 0 <= y < |b| && b[Prev(|b|, x)] == b[Prev(|b|, y)] && rank[x] <= rank[y]
      ensures rank[Prev(|b|, x)] <= rank[Prev(|b|, y)]
    {
      assert RotLe(b, x, y);
      CmpPrefix(b, x, y, |b| - 1, |b|);
      assert RotLe(b, Prev(|b|, x), Prev(|b|, y));
    }
  }

  /** The two finished queues of big bucket ss. */
  ghost predicate Scanned(b: seq<byte>, rank: seq<int>, ss: int, l0: seq<int>, l: seq<int>, r0: seq<int>, r: seq<int>) {
    && |b| >= 2 && Ranked(b, rank)
    && Seeds(b, rank, ss, l0) && Finished(b, rank, ss, l0, l, [])
    && Seeds(b, Reversed(rank), ss, r0) && Finished(b, Reversed(rank), ss, r0, r, l)
    && (forall i :: 0 <= i < |l0| ==> b[Next(|b|, l0[i])] < ss)
    && (forall i :: 0 <= i < |r0| ==> b[Next(|b|, r0[i])] > ss)
    // every rotation that starts with ss and then another byte is a seed
    && forall x {:trigger x in l0} {:trigger x in r0} :: 0 <= x < |b| && b[x] == ss && b[Next(|b|, x)] != ss ==> x in l0 || x in r0
  }

  lemma SecondBytes(b: seq<byte>, ord: seq<int>, ss: int, q0: seq<int>, q: seq<int>, other: seq<int>, i: int)
    requires Seeds(b, ord, ss, q0) && Finished(b, ord, ss, q0, q, other) && |q0| <= i < |q|
    ensures b[Next(|b|, q[i])] == ss
  {
    assert q[..|q|] == q;
    PredsMembers(b, q, ss, q[i]);
    assert q[i] == Preds(b, q, ss)[i - |q0|];
  }

  /** Stepping back through bytes ss, from one followed by another byte, stays in q. */
  ghost predicate StepsBack(b: seq<byte>, ss: int, q: set<int>) {
    forall x {:trigger x in q} :: 0 <= x < |b| && b[x] == ss && (b[Next(|b|, x)] != ss || Next(|b|, x) in q) ==> x in q
  }

  lemma {:induction false} Reached(b: seq<byte>, ss: int, q: set<int>, x: int, h: nat)
    requires StepsBack(b, ss, q)
    requires 0 <= x < |b| && b[x] == ss && b[Advance(|b|, x, h)] != ss
    ensures x in q
    decreases h
  {
    if b[Next(|b|, x)] == ss {
      Reached(b, ss, q, Next(|b|, x), h - 1);
    }
  }

  lemma ReachedBack(b: seq<byte>, rank: seq<int>, ss: int, l0: seq<int>, l: seq<int>, r0: seq<int>, r: seq<int>, x: int)
    requires Scanned(b, rank, ss, l0, l, r0, r) && 0 <= x < |b| && b[x] == ss
    requires b[Next(|b|, x)] != ss || Next(|b|, x) in l || Next(|b|, x) in r
    ensures x in l || x in r
  {
    if b[Next(|b|, x)] != ss {
      assert x in l0 || x in r0;
    } else if Next(|b|, x) in l {
      FinishedClosed(b, rank, ss, l0, l, [], x);
    } else {
      FinishedClosed(b, Reversed(rank), ss, r0, r, l, x);
    }
  }

  /** Unless the whole block is ss, the scans reach every rotation that starts with ss. */
  lemma ReachedAll(b: seq<byte>, rank: seq<int>, ss: int, l0: seq<int>, l: seq<int>, r0: seq<int>, r: seq<int>, y: int, x: int)
    requires Scanned(b, rank, ss, l0, l, r0, r) && 0 <= y < |b| && b[y] != ss
    requires 0 <= x < |b| && b[x] == ss
    ensures x in l || x in r
  {
    var h := StepsTo(|b|, x, y);
    var q := Elems(l) + Elems(r);
    forall z | 0 <= z < |b| && b[z] == ss && (b[Next(|b|, z)] != ss || Next(|b|, z) in q)
      ensures z in q
    {
      ReachedBack(b, rank, ss, l0, l, r0, r, z);
    }
    Reached(b, ss, q, x, h);
  }

  lemma StepsTo(n: nat, x: int, y: int) returns (h: nat)
    requires 0 <= x < n && 0 <= y < n
    ensures Advance(n, x, h) == y
  {
    h := if x <= y then y - x else y - x + n;
    AdvanceIs(n, x, h);
  }

  /** Each bucket [c, ss] is filled exactly. */
  lemma LaneFull(b: seq<byte>, rank: seq<int>, ss: int, l0: seq<int>, l: seq<int>, r0: seq<int>, r: seq<int>, y: int, c: int)
    requires Scanned(b, rank, ss, l0, l, r0, r) && 0 <= y < |b| && b[y] != ss
    ensures |Preds(b, l, c)| + |Preds(b, r, c)| == |Members(b, c, ss)|
    ensures Injective(Preds(b, l, c) + Preds(b, r, c))
  {
    PredsFit(b, ss, r, l, c);
    PredsApart(b, ss, l, r, c);
    var w := Preds(b, l, c) + Preds(b, r, c);
    forall x | x in Members(b, c, ss)
      ensures x in Elems(w)
    {
      ReachedAll(b, rank, ss, l0, l, r0, r, y, Next(|b|, x));
      PredsMembers(b, l, c, x);
      PredsMembers(b, r, c, x);
    }
    CardElems(w);
    CardSubset(Members(b, c, ss), Elems(w));
  }

  lemma PredsApart(b: seq<byte>, ss: int, l: seq<int>, r: seq<int>, c: int)
    requires Headed(b, ss, l) && Headed(b, ss, r) && Injective(l) && Injective(r)
    requires forall i :: 0 <= i < |r| ==> r[i] !in l
    ensures Injective(Preds(b, l, c) + Preds(b, r, c))
  {
    PredsInjective(b, l, c);
    PredsInjective(b, r, c);
    var u, v := Preds(b, l, c), Preds(b, r, c);
    forall i, j | 0 <= i < |u| && 0 <= j < |v|
      ensures u[i] != v[j]
    {
      PredsMembers(b, l, c, u[i]);
      PredsMembers(b, r, c, v[j]);
    }
  }

  lemma LeftSide(b: seq<byte>, rank: seq<int>, ss: int, l0: seq<int>, l: seq<int>, r0: seq<int>, r: seq<int>)
    requires Scanned(b, rank, ss, l0, l, r0, r)
    ensures forall i :: 0 <= i < |l| ==> b[Next(|b|, l[i])] <= ss
    ensures forall i :: 0 <= i < |l| && i < |l0| ==> b[Next(|b|, l[i])] < ss
  {
    forall i | 0 <= i < |l|
      ensures b[Next(|b|, l[i])] <= ss && (i < |l0| ==> b[Next(|b|, l[i])] < ss)
    {
      if i < |l0| { assert l[i] == l0[i]; } else { SecondBytes(b, rank, ss, l0, l, [], i); }
    }
  }

  lemma RightSide(b: seq<byte>, rank: seq<int>, ss: int, l0: seq<int>, l: seq<int>, r0: seq<int>, r: seq<int>)
    requires Scanned(b, rank, ss, l0, l, r0, r)
    ensures forall i :: 0 <= i < |r| ==> b[Next(|b|, r[i])] >= ss
  {
    forall i | 0 <= i < |r|
      ensures b[Next(|b|, r[i])] >= ss
    {
      if i < |r0| { assert r[i] == r0[i]; } else { SecondBytes(b, Reversed(rank), ss, r0, r, l, i); }
    }
  }

  lemma QueuesApart(b: seq<byte>, rank: seq<int>, ss: int, l0: seq<int>, l: seq<int>, r0: seq<int>, r: seq<int>, u: int, y: int)
    requires Scanned(b, rank, ss, l0, l, r0, r) && 0 <= u < |l| && y in r
    ensures RotLe(b, l[u], y)
  {
    LeftSide(b, rank, ss, l0, l, r0, r);
    RightSide(b, rank, ss, l0, l, r0, r);
    FinishedRooted(b, Reversed(rank), ss, r0, r, l);
    LeftBeforeRight(b, ss, |l0|, l, r, u, y);
  }

  /** A left-dealt rotation comes before a right-dealt one of the same bucket. */
  lemma DealtOrder(b: seq<byte>, rank: seq<int>, ss: int, l0: seq<int>, l: seq<int>, r0: seq<int>, r: seq<int>, c: int, x: int, y: int)
    requires Scanned(b, rank, ss, l0, l, r0, r)
    requires x in Preds(b, l, c) && y in Preds(b, r, c)
    ensures KeyLe(rank, x, y)
  {
    PredsMembers(b, l, c, x);
    PredsMembers(b, r, c, y);
    var u :| 0 <= u < |l| && l[u] == Next(|b|, x);
    QueuesApart(b, rank, ss, l0, l, r0, r, u, Next(|b|, y));
    PrependedOrder(b, rank, x, y);
  }

  lemma PrependedOrder(b: seq<byte>, rank: seq<int>, x: int, y: int)
    requires |b| >= 2 && Ranked(b, rank) && 0 <= x < |b| && 0 <= y < |b| && b[x] == b[y]
    requires RotLe(b, Next(|b|, x), Next(|b|, y))
    ensures KeyLe(rank, x, y)
  {
    CmpPrefix(b, Next(|b|, x), Next(|b|, y), |b| - 1, |b|);
    assert RotLe(b, x, y);
  }

  // ---- The array after both scans ----

  /** Bucket [c, ss] as dealt: from the left end the predecessors of l, from the
      right end those of r. */
  ghost predicate Dealt(b: seq<byte>, p: seq<int>, ss: int, l: seq<int>, r: seq<int>, c: int)
    requires 0 <= c < 256 && 0 <= ss < 256
    requires forall i :: 0 <= i < |l| ==> 0 <= l[i] < |b|
    requires forall i :: 0 <= i < |r| ==> 0 <= r[i] < |b|
  {
    DealtFrom(p, Start(b, 256 * c + ss), Start(b, 256 * c + ss + 1), Preds(b, l, c), Preds(b, r, c))
  }

  ghost predicate DealtFrom(p: seq<int>, s: int, e: int, u: seq<int>, v: seq<int>) {
    && 0 <= s && |u| + |v| == e - s && e <= |p|
    && (forall i :: s <= i < s + |u| ==> p[i] == u[i - s])
    && (forall i :: s + |u| <= i < e ==> p[i] == v[e - 1 - i])
  }

  /** A dealt bucket holds rotations of that bucket. */
  lemma DealtKey(b: seq<byte>, p: seq<int>, ss: int, l: seq<int>, r: seq<int>, c: int, i: int)
    requires Headed(b, ss, l) && Headed(b, ss, r) && 0 <= c < 256 && 0 <= ss < 256 && Dealt(b, p, ss, l, r, c)
    requires Start(b, 256 * c + ss) <= i < Start(b, 256 * c + ss + 1)
    ensures 0 <= p[i] < |b| && KeyAt(b, p[i]) == 256 * c + ss
  {
    var u, v, s, e := Preds(b, l, c), Preds(b, r, c), Start(b, 256 * c + ss), Start(b, 256 * c + ss + 1);
    if i - s < |u| {
      assert p[i] == u[i - s];
      PredsMembers(b, l, c, p[i]);
    } else {
      assert p[i] == v[e - 1 - i];
      PredsMembers(b, r, c, p[i]);
    }
  }

  lemma DealtInjective(p: seq<int>, s: int, e: int, u: seq<int>, v: seq<int>, i: int, j: int)
    requires DealtFrom(p, s, e, u, v) && Injective(u + v) && s <= i < j < e
    ensures p[i] != p[j]
  {
    var w := u + v;
    assert i < s + |u| ==> p[i] == w[i - s];
    assert i >= s + |u| ==> p[i] == w[|u| + e - 1 - i];
    assert j < s + |u| ==> p[j] == w[j - s];
    assert j >= s + |u| ==> p[j] == w[|u| + e - 1 - j];
  }

  lemma DealtOrdered(p: seq<int>, s: int, e: int, u: seq<int>, v: seq<int>, rank: seq<int>)
    requires DealtFrom(p, s, e, u, v) && Ordered(rank, u) && Ordered(Reversed(rank), v)
    requires forall x, y :: x in u && y in v ==> KeyLe(rank, x, y)
    ensures KeySorted(p, rank, s, e - 1)
  {
    forall i, j | s <= i < j <= e - 1
      ensures KeyLe(rank, p[i], p[j])
    {
      if j < s + |u| {
        assert rank[u[i - s]] <= rank[u[j - s]];
      } else if i >= s + |u| {
        var x, y := v[e - 1 - i], v[e - 1 - j];
        assert Reversed(rank)[y] <= Reversed(rank)[x];
      } else {
        assert p[i] == u[i - s] && p[j] == v[e - 1 - j];
      }
    }
  }

  lemma DealtSorted(b: seq<byte>, rank: seq<int>, p: seq<int>, ss: int, l0: seq<int>, l: seq<int>, r0: seq<int>, r: seq<int>, c: int)
    requires Scanned(b, rank, ss, l0, l, r0, r) && 0 <= c < 256 && 0 <= ss < 256 && Dealt(b, p, ss, l, r, c)
    ensures BucketSorted(b, rank, p, 256 * c + ss)
  {
    var u, v := Preds(b, l, c), Preds(b, r, c);
    PredsOrdered(b, rank, l, c);
    PredsOrdered(b, Reversed(rank), r, c);
    forall x, y | x in u && y in v
      ensures KeyLe(rank, x, y)
    {
      DealtOrder(b, rank, ss, l0, l, r0, r, c, x, y);
    }
    DealtOrdered(p, Start(b, 256 * c + ss), Start(b, 256 * c + ss + 1), u, v, rank);
  }

  /** The buckets [c, ss] of big buckets not yet done are dealt, the rest is as before. */
  ghost predicate AllDealt(b: seq<byte>, p: seq<int>, p': seq<int>, ss: int, done: seq<bool>, l: seq<int>, r: seq<int>)
    requires forall i :: 0 <= i < |l| ==> 0 <= l[i] < |b|
    requires forall i :: 0 <= i < |r| ==> 0 <= r[i] < |b|
  {
    && |done| == 256 && 0 <= ss < 256 && |p'| == |p| == |b|
    && (forall c :: 0 <= c < 256 && !done[c] ==> Dealt(b, p', ss, l, r, c))
    && forall i {:trigger p'[i]} :: 0 <= i < |p| && 0 <= p[i] < |b| && (b[Next(|b|, p[i])] != ss || done[b[p[i]]]) ==> p'[i] == p[i]
  }

  lemma DealtPlace(b: seq<byte>, p: seq<int>, p': seq<int>, ss: int, done: seq<bool>, l: seq<int>, r: seq<int>, i: int)
    requires Headed(b, ss, l) && Headed(b, ss, r)
    requires InBuckets(b, p) && AllDealt(b, p, p', ss, done, l, r) && 0 <= i < |p|
    ensures 0 <= p'[i] < |b| && KeyAt(b, p'[i]) == KeyAt(b, p[i])
  {
    var c, d := b[p[i]], b[Next(|b|, p[i])];
    if d == ss && !done[c] {
      DealtKey(b, p', ss, l, r, c, i);
    }
  }

  lemma DealtInBuckets(b: seq<byte>, rank: seq<int>, p: seq<int>, p': seq<int>, ss: int, done: seq<bool>,
                       l0: seq<int>, l: seq<int>, r0: seq<int>, r: seq<int>, y: int)
    requires Scanned(b, rank, ss, l0, l, r0, r) && InBuckets(b, p) && AllDealt(b, p, p', ss, done, l, r)
    requires 0 <= y < |b| && b[y] != ss
    ensures InBuckets(b, p')
  {
    forall c: nat
      ensures Injective(Preds(b, l, c) + Preds(b, r, c))
    {
      LaneFull(b, rank, ss, l0, l, r0, r, y, c);
    }
    forall i | 0 <= i < |p'|
      ensures 0 <= p'[i] < |b| && KeyAt(b, p'[i]) == KeyAt(b, p[i])
    {
      DealtPlace(b, p, p', ss, done, l, r, i);
    }
    forall i, j | 0 <= i < j < |p'|
      ensures p'[i] != p'[j]
    {
      DealtDistinct(b, p, p', ss, done, l, r, i, j);
    }
  }

  lemma DealtDistinct(b: seq<byte>, p: seq<int>, p': seq<int>, ss: int, done: seq<bool>, l: seq<int>, r: seq<int>, i: int, j: int)
    requires Headed(b, ss, l) && Headed(b, ss, r) && InBuckets(b, p) && AllDealt(b, p, p', ss, done, l, r)
    requires forall c: nat :: Injective(Preds(b, l, c) + Preds(b, r, c))
    requires 0 <= i < j < |p|
    ensures p'[i] != p'[j]
  {
    var c := b[p[i]];
    if KeyAt(b, p[i]) == KeyAt(b, p[j]) == 256 * c + ss && !done[c] {
      DealtInjective(p', Start(b, 256 * c + ss), Start(b, 256 * c + ss + 1), Preds(b, l, c), Preds(b, r, c), i, j);
    } else {
      KeptDistinct(b, p, p', ss, done, l, r, i, j);
    }
  }

  lemma KeptDistinct(b: seq<byte>, p: seq<int>, p': seq<int>, ss: int, done: seq<bool>, l: seq<int>, r: seq<int>, i: int, j: int)
    requires Headed(b, ss, l) && Headed(b, ss, r) && InBuckets(b, p) && AllDealt(b, p, p', ss, done, l, r)
    requires 0 <= i < j < |p|
    requires KeyAt(b, p[i]) != KeyAt(b, p[j]) || KeyAt(b, p[i]) != 256 * b[p[i]] + ss || done[b[p[i]]]
    ensures p'[i] != p'[j]
  {
    if KeyAt(b, p[i]) != KeyAt(b, p[j]) {
      DealtPlace(b, p, p', ss, done, l, r, i);
      DealtPlace(b, p, p', ss, done, l, r, j);
    } else {
      assert b[p[j]] == b[p[i]] && b[Next(|b|, p[j])] == b[Next(|b|, p[i])];
      assert p'[i] == p[i] && p'[j] == p[j];
    }
  }

  // ---- Setting the two scans up ----

  ghost function LeftLanes(b: seq<byte>, ss: int): (lanes: Lanes)
    requires 0 <= ss < 256
    ensures |lanes.lo| == |lanes.hi| == 256
    ensures forall c :: 0 <= c < 256 ==> lanes.lo[c] == Start(b, 256 * c + ss)
    ensures forall c :: 0 <= c < 256 ==> lanes.hi[c] == Start(b, 256 * c + ss + 1)
  {
    Lanes(seq(256, c requires 0 <= c < 256 => Start(b, 256 * c + ss)),
          seq(256, c requires 0 <= c < 256 => Start(b, 256 * c + ss + 1)),
          Start(b, 256 * ss), Start(b, 256 * ss + 256))
  }

  lemma LeftLanesApart(b: seq<byte>, ss: int)
    requires 0 <= ss < 256
    ensures LeftLanes(b, ss).Apart(|b|, ss)
  {
    var lanes := LeftLanes(b, ss);
    forall c | 0 <= c < 256
      ensures lanes.lo[c] <= lanes.hi[c] <= |b|
      ensures c < ss ==> lanes.hi[c] <= lanes.first
      ensures ss < c ==> lanes.last <= lanes.lo[c]
    {
      StartMono(b, 256 * c + ss, 256 * c + ss + 1);
      if c < ss { StartMono(b, 256 * c + ss + 1, 256 * ss); }
      if ss < c { StartMono(b, 256 * ss + 256, 256 * c + ss); }
    }
    forall c, d | 0 <= c < d < 256
      ensures lanes.hi[c] <= lanes.lo[d]
    {
      StartMono(b, 256 * c + ss + 1, 256 * d + ss);
    }
    StartMono(b, 256 * ss, 256 * ss + ss);
    StartMono(b, 256 * ss + ss + 1, 256 * ss + 256);
  }

  /** The rotations that start ss and then a smaller byte. */
  ghost function LeftSeeds(b: seq<byte>, p: seq<int>, ss: int): (q: seq<int>)
    requires 0 <= ss < 256 && |p| == |b| && Start(b, 256 * ss) <= Start(b, 256 * ss + ss) <= |p|
  {
    p[Start(b, 256 * ss)..Start(b, 256 * ss + ss)]
  }

  lemma LeftSeedsOk(b: seq<byte>, rank: seq<int>, p: seq<int>, ss: int)
    requires |b| >= 2 && Ranked(b, rank) && InBuckets(b, p) && 0 <= ss < 256
    requires Start(b, 256 * ss) <= Start(b, 256 * ss + ss) <= |p|
    requires forall k :: 256 * ss <= k < 256 * ss + ss ==> BucketSorted(b, rank, p, k)
    ensures var l0 := LeftSeeds(b, p, ss);
            && Seeds(b, rank, ss, l0) && Injective(l0) && Ordered(rank, l0)
            && (forall i :: 0 <= i < |l0| ==> b[Next(|b|, l0[i])] < ss)
  {
    var l0, s := LeftSeeds(b, p, ss), Start(b, 256 * ss);
    RankOrderOk(b, rank);
    RunSorted(b, rank, p, 256 * ss, 256 * ss + ss);
    forall i | 0 <= i < |l0|
      ensures l0[i] == p[s + i] && 0 <= l0[i] < |b| && b[l0[i]] == ss && b[Next(|b|, l0[i])] < ss
    {
      RunHolds(b, p, 256 * ss, 256 * ss + ss, s + i);
    }
    forall u, v | 0 <= u < v < |l0|
      ensures rank[l0[u]] <= rank[l0[v]]
    {
      assert KeyLe(rank, p[s + u], p[s + v]);
    }
    forall i, y | 0 <= i < |l0| && 0 <= y < |b| && b[y] == ss && b[Next(|b|, y)] == ss
      ensures rank[l0[i]] <= rank[y]
    {
      KeyOrder(b, rank, l0[i], y);
    }
  }

  ghost function RightSeeds(b: seq<byte>, p: seq<int>, ss: int): (q: seq<int>)
    requires 0 <= ss < 256 && |p| == |b| && Start(b, 256 * ss + ss + 1) <= Start(b, 256 * ss + 256) <= |p|
  {
    var s, e := Start(b, 256 * ss + ss + 1), Start(b, 256 * ss + 256);
    seq(e - s, i requires 0 <= i < e - s => p[e - 1 - i])
  }

  lemma RightSeedsOk(b: seq<byte>, rank: seq<int>, p: seq<int>, ss: int)
    requires |b| >= 2 && Ranked(b, rank) && InBuckets(b, p) && 0 <= ss < 256
    requires Start(b, 256 * ss + ss + 1) <= Start(b, 256 * ss + 256) <= |p|
    requires forall k :: 256 * ss + ss + 1 <= k < 256 * ss + 256 ==> BucketSorted(b, rank, p, k)
    ensures var r0 := RightSeeds(b, p, ss);
            && Seeds(b, Reversed(rank), ss, r0) && Injective(r0) && Ordered(Reversed(rank), r0)
            && (forall i :: 0 <= i < |r0| ==> b[Next(|b|, r0[i])] > ss)
  {
    var r0, e := RightSeeds(b, p, ss), Start(b, 256 * ss + 256);
    RankOrderOk(b, rank);
    RunSorted(b, rank, p, 256 * ss + ss + 1, 256 * ss + 256);
    forall i | 0 <= i < |r0|
      ensures r0[i] == p[e - 1 - i] && 0 <= r0[i] < |b| && b[r0[i]] == ss && b[Next(|b|, r0[i])] > ss
    {
      RunHolds(b, p, 256 * ss + ss + 1, 256 * ss + 256, e - 1 - i);
    }
    forall u, v | 0 <= u < v < |r0|
      ensures Reversed(rank)[r0[u]] <= Reversed(rank)[r0[v]]
    {
      assert KeyLe(rank, p[e - 1 - v], p[e - 1 - u]);
    }
    forall i, y | 0 <= i < |r0| && 0 <= y < |b| && b[y] == ss && b[Next(|b|, y)] == ss
      ensures Reversed(rank)[r0[i]] <= Reversed(rank)[y]
    {
      KeyOrder(b, rank, y, r0[i]);
    }
  }

  /** Every rotation that starts with ss and then another byte is a seed. */
  lemma SeedsComplete(b: seq<byte>, p: seq<int>, ss: int, x: int)
    requires InBuckets(b, p) && 0 <= ss < 256
    requires Start(b, 256 * ss) <= Start(b, 256 * ss + ss) <= |p| && Start(b, 256 * ss + ss + 1) <= Start(b, 256 * ss + 256) <= |p|
    requires 0 <= x < |b| && b[x] == ss && b[Next(|b|, x)] != ss
    ensures x in LeftSeeds(b, p, ss) || x in RightSeeds(b, p, ss)
  {
    PermOnto(p, x);
    var i :| 0 <= i < |p| && p[i] == x;
    RunHolds(b, p, 256 * ss, 256 * ss + ss, i);
    RunHolds(b, p, 256 * ss + ss + 1, 256 * ss + 256, i);
    if b[Next(|b|, x)] < ss {
      assert LeftSeeds(b, p, ss)[i - Start(b, 256 * ss)] == x;
    } else {
      assert RightSeeds(b, p, ss)[Start(b, 256 * ss + 256) - 1 - i] == x;
    }
  }

  /** What the left scan leaves of each lane. */
  ghost function RightLanes(b: seq<byte>, ss: int, done: seq<bool>, cs: seq<int>): (lanes: Lanes)
    requires 0 <= ss < 256 && |done| == |cs| == 256
    ensures |lanes.lo| == |lanes.hi| == 256
  {
    LeftLanes(b, ss).(lo := seq(256, c requires 0 <= c < 256 => if done[c] then Start(b, 256 * c + ss) else cs[c]))
  }

  lemma LaneIs(b: seq<byte>, p: seq<int>, lanes: Lanes, cur: seq<int>, done: seq<bool>, up: bool, q: seq<int>, c: int)
    requires |lanes.lo| == |lanes.hi| == 256 == |cur| == |done| && 0 <= c < 256 && !done[c]
    requires forall i :: 0 <= i < |q| ==> 0 <= q[i] < |b|
    requires Filling(b, p, lanes, cur, done, up, q, |q|)
    ensures var s := Preds(b, q, c);
            && |s| <= lanes.hi[c] - lanes.lo[c] && cur[c] == Place(up, lanes.Base(up, c), |s|)
            && 0 <= lanes.lo[c] && lanes.hi[c] <= |p|
            && Holds(p, up, lanes.Base(up, c), s)
  {
    assert q[..|q|] == q;
    assert Lane(b, p, lanes, cur, up, q, |q|, c);
  }

  lemma RightLanesApart(b: seq<byte>, ss: int, p: seq<int>, done: seq<bool>, cs: seq<int>, l: seq<int>)
    requires 0 <= ss < 256 && |done| == |cs| == 256 && Headed(b, ss, l)
    requires Filling(b, p, LeftLanes(b, ss), cs, done, true, l, |l|)
    ensures RightLanes(b, ss, done, cs).Apart(|b|, ss)
    ensures Roomy(b, ss, RightLanes(b, ss, done, cs), done, l)
  {
    LeftLanesApart(b, ss);
    var left, right := LeftLanes(b, ss), RightLanes(b, ss, done, cs);
    forall c | 0 <= c < 256
      ensures left.lo[c] <= right.lo[c] <= right.hi[c] == left.hi[c]
      ensures !done[c] ==> right.hi[c] - right.lo[c] + |Preds(b, l, c)| == |Members(b, c, ss)|
    {
      MembersCount(b, c, ss);
      if !done[c] { LaneIs(b, p, left, cs, done, true, l, c); }
    }
  }

  lemma LeftRoomy(b: seq<byte>, ss: int, done: seq<bool>)
    requires 0 <= ss < 256 && |done| == 256
    ensures Roomy(b, ss, LeftLanes(b, ss), done, [])
  {
    forall c | 0 <= c < 256
      ensures LeftLanes(b, ss).hi[c] - LeftLanes(b, ss).lo[c] == |Members(b, c, ss)|
    {
      MembersCount(b, c, ss);
    }
  }

  /** Places outside the buckets [c, ss] that are written lie outside all lanes. */
  lemma OutsideOther(b: seq<byte>, p: seq<int>, ss: int, done: seq<bool>, i: int)
    requires InBuckets(b, p) && 0 <= ss < 256 && |done| == 256 && 0 <= i < |p|
    requires b[Next(|b|, p[i])] != ss || done[b[p[i]]]
    ensures OutsideLanes(LeftLanes(b, ss), done, i)
  {
    forall c | 0 <= c < 256 && !done[c]
      ensures !LeftLanes(b, ss).In(c, i)
    {
      BucketHolds(b, p, 256 * c + ss, i);
    }
  }

  lemma OutsideRight(b: seq<byte>, ss: int, p1: seq<int>, done: seq<bool>, cs: seq<int>, l: seq<int>, i: int)
    requires 0 <= ss < 256 && |done| == |cs| == 256 && Headed(b, ss, l)
    requires Filling(b, p1, LeftLanes(b, ss), cs, done, true, l, |l|)
    requires OutsideLanes(LeftLanes(b, ss), done, i)
    ensures OutsideLanes(RightLanes(b, ss, done, cs), done, i)
  {
    forall c | 0 <= c < 256 && !done[c]
      ensures !RightLanes(b, ss, done, cs).In(c, i)
    {
      LaneIs(b, p1, LeftLanes(b, ss), cs, done, true, l, c);
      assert !LeftLanes(b, ss).In(c, i);
    }
  }

  /** What the left scan dealt is outside the lanes of the right scan, so it stays. */
  lemma LeftStays(p1: seq<int>, p2: seq<int>, left: Lanes, right: Lanes, ss: int, done: seq<bool>, u: seq<int>, c: int)
    requires |p1| == |p2| && left.Apart(|p1|, ss) && |done| == 256 && |right.lo| == |right.hi| == 256
    requires forall d :: 0 <= d < 256 && !done[d] ==> left.lo[d] <= right.lo[d] && right.hi[d] == left.hi[d]
    requires 0 <= c < 256 && !done[c] && right.lo[c] == left.lo[c] + |u| <= left.hi[c] && Holds(p1, true, left.lo[c], u)
    requires Kept(p1, p2, right, done)
    ensures Holds(p2, true, left.lo[c], u)
  {
    forall i {:trigger p2[i]} | left.lo[c] <= i < left.lo[c] + |u|
      ensures p2[i] == u[i - left.lo[c]]
    {
      forall d | 0 <= d < 256 && !done[d]
        ensures !right.In(d, i)
      {
        if d < c { assert left.hi[d] <= left.lo[c]; } else if c < d { assert left.hi[c] <= left.lo[d]; }
      }
      assert OutsideLanes(right, done, i);
    }
  }

  lemma DealtBoth(p: seq<int>, s: int, e: int, u: seq<int>, v: seq<int>)
    requires 0 <= s && e <= |p| && |u| + |v| == e - s
    requires Holds(p, true, s, u) && Holds(p, false, e - 1, v)
    ensures DealtFrom(p, s, e, u, v)
  {
  }

  /** The right scan's lanes are what the left scan left open. */
  ghost predicate Narrowed(left: Lanes, right: Lanes, done: seq<bool>, cs: seq<int>) {
    && |left.lo| == |left.hi| == |right.lo| == |right.hi| == |done| == |cs| == 256
    && forall d :: 0 <= d < 256 && !done[d] ==> left.lo[d] <= right.lo[d] == cs[d] && right.hi[d] == left.hi[d]
  }

  lemma LaneDealt(b: seq<byte>, ss: int, p1: seq<int>, p2: seq<int>, left: Lanes, right: Lanes, done: seq<bool>, cs: seq<int>, ce: seq<int>,
                  l: seq<int>, r: seq<int>, c: int)
    requires |ce| == 256 && Headed(b, ss, l) && Headed(b, ss, r) && |p1| == |p2|
    requires left.Apart(|p1|, ss) && Narrowed(left, right, done, cs) && Kept(p1, p2, right, done)
    requires Filling(b, p1, left, cs, done, true, l, |l|) && Filling(b, p2, right, ce, done, false, r, |r|)
    requires 0 <= c < 256 && !done[c] && |Preds(b, l, c)| + |Preds(b, r, c)| == left.hi[c] - left.lo[c]
    ensures DealtFrom(p2, left.lo[c], left.hi[c], Preds(b, l, c), Preds(b, r, c)) && cs[c] - 1 == ce[c]
  {
    var u, v := Preds(b, l, c), Preds(b, r, c);
    LaneIs(b, p1, left, cs, done, true, l, c);
    assert Holds(p1, true, left.lo[c], u) && cs[c] == left.lo[c] + |u|;
    LeftStays(p1, p2, left, right, ss, done, u, c);
    LaneIs(b, p2, right, ce, done, false, r, c);
    assert Holds(p2, false, left.hi[c] - 1, v) && ce[c] == left.hi[c] - 1 - |v|;
    DealtBoth(p2, left.lo[c], left.hi[c], u, v);
  }

  lemma RightNarrowed(b: seq<byte>, ss: int, p1: seq<int>, done: seq<bool>, cs: seq<int>, l: seq<int>)
    requires 0 <= ss < 256 && |done| == |cs| == 256 && Headed(b, ss, l)
    requires Filling(b, p1, LeftLanes(b, ss), cs, done, true, l, |l|)
    ensures Narrowed(LeftLanes(b, ss), RightLanes(b, ss, done, cs), done, cs)
  {
    forall d | 0 <= d < 256 && !done[d]
      ensures LeftLanes(b, ss).lo[d] <= cs[d]
    {
      LaneIs(b, p1, LeftLanes(b, ss), cs, done, true, l, d);
    }
  }

  lemma LaneSize(b: seq<byte>, ss: int, c: int)
    requires 0 <= ss < 256 && 0 <= c < 256
    ensures LeftLanes(b, ss).hi[c] - LeftLanes(b, ss).lo[c] == |Members(b, c, ss)|
  {
    MembersCount(b, c, ss);
  }

  lemma LaneCount(b: seq<byte>, rank: seq<int>, ss: int, l0: seq<int>, l: seq<int>, r0: seq<int>, r: seq<int>, y: int, c: int)
    requires 0 <= ss < 256 && Scanned(b, rank, ss, l0, l, r0, r) && 0 <= y < |b| && b[y] != ss && 0 <= c < 256
    ensures |Preds(b, l, c)| + |Preds(b, r, c)| == LeftLanes(b, ss).hi[c] - LeftLanes(b, ss).lo[c]
  {
    LaneFull(b, rank, ss, l0, l, r0, r, y, c);
    LaneSize(b, ss, c);
  }

  lemma LanesDealt(b: seq<byte>, ss: int, p1: seq<int>, p2: seq<int>, left: Lanes, right: Lanes, done: seq<bool>, cs: seq<int>, ce: seq<int>,
                   l: seq<int>, r: seq<int>)
    requires |ce| == 256 && Headed(b, ss, l) && Headed(b, ss, r) && |p1| == |p2|
    requires left.Apart(|p1|, ss) && Narrowed(left, right, done, cs) && Kept(p1, p2, right, done)
    requires Filling(b, p1, left, cs, done, true, l, |l|) && Filling(b, p2, right, ce, done, false, r, |r|)
    requires forall c :: 0 <= c < 256 && !done[c] ==> |Preds(b, l, c)| + |Preds(b, r, c)| == left.hi[c] - left.lo[c]
    ensures forall c :: 0 <= c < 256 && !done[c] ==>
              DealtFrom(p2, left.lo[c], left.hi[c], Preds(b, l, c), Preds(b, r, c)) && cs[c] - 1 == ce[c]
  {
    forall c | 0 <= c < 256 && !done[c]
      ensures DealtFrom(p2, left.lo[c], left.hi[c], Preds(b, l, c), Preds(b, r, c)) && cs[c] - 1 == ce[c]
    {
      LaneDealt(b, ss, p1, p2, left, right, done, cs, ce, l, r, c);
    }
  }

  lemma OthersKept(b: seq<byte>, ss: int, p: seq<int>, p1: seq<int>, p2: seq<int>, done: seq<bool>, cs: seq<int>, l: seq<int>)
    requires 0 <= ss < 256 && |done| == |cs| == 256 && |p1| == |p2| == |b| && InBuckets(b, p) && Headed(b, ss, l)
    requires Filling(b, p1, LeftLanes(b, ss), cs, done, true, l, |l|) && Kept(p, p1, LeftLanes(b, ss), done)
    requires Kept(p1, p2, RightLanes(b, ss, done, cs), done)
    ensures forall i {:trigger p2[i]} :: 0 <= i < |p| && (b[Next(|b|, p[i])] != ss || done[b[p[i]]]) ==> p1[i] == p[i] && p2[i] == p[i]
  {
    forall i {:trigger p2[i]} | 0 <= i < |p| && (b[Next(|b|, p[i])] != ss || done[b[p[i]]])
      ensures p1[i] == p[i] && p2[i] == p[i]
    {
      OutsideOther(b, p, ss, done, i);
      OutsideRight(b, ss, p1, done, cs, l, i);
    }
  }

  lemma ScansDealt(b: seq<byte>, ss: int, p1: seq<int>, p2: seq<int>, done: seq<bool>, cs: seq<int>, ce: seq<int>, l: seq<int>, r: seq<int>)
    requires 0 <= ss < 256 && |done| == |cs| == |ce| == 256 && |p1| == |p2| == |b| && Headed(b, ss, l) && Headed(b, ss, r)
    requires Filling(b, p1, LeftLanes(b, ss), cs, done, true, l, |l|)
    requires Filling(b, p2, RightLanes(b, ss, done, cs), ce, done, false, r, |r|) && Kept(p1, p2, RightLanes(b, ss, done, cs), done)
    requires forall c :: 0 <= c < 256 ==> |Preds(b, l, c)| + |Preds(b, r, c)| == LeftLanes(b, ss).hi[c] - LeftLanes(b, ss).lo[c]
    ensures forall c :: 0 <= c < 256 && !done[c] ==> Dealt(b, p2, ss, l, r, c) && cs[c] - 1 == ce[c]
  {
    LeftLanesApart(b, ss);
    RightNarrowed(b, ss, p1, done, cs, l);
    var left := LeftLanes(b, ss);
    LanesDealt(b, ss, p1, p2, left, RightLanes(b, ss, done, cs), done, cs, ce, l, r);
    forall c | 0 <= c < 256 && !done[c]
      ensures Dealt(b, p2, ss, l, r, c)
    {
      assert left.lo[c] == Start(b, 256 * c + ss) && left.hi[c] == Start(b, 256 * c + ss + 1);
    }
  }

  /** Both scans together: all lanes dealt, nothing else touched. */
  lemma BothScans(b: seq<byte>, rank: seq<int>, ss: int, p: seq<int>, p1: seq<int>, p2: seq<int>, done: seq<bool>, cs: seq<int>, ce: seq<int>,
                  l0: seq<int>, l: seq<int>, r0: seq<int>, r: seq<int>, y: int)
    requires 0 <= ss < 256 && |done| == |cs| == |ce| == 256 && !done[ss] && |p1| == |p2| == |b|
    requires InBuckets(b, p) && Scanned(b, rank, ss, l0, l, r0, r) && 0 <= y < |b| && b[y] != ss
    requires Filling(b, p1, LeftLanes(b, ss), cs, done, true, l, |l|) && Kept(p, p1, LeftLanes(b, ss), done)
    requires Filling(b, p2, RightLanes(b, ss, done, cs), ce, done, false, r, |r|) && Kept(p1, p2, RightLanes(b, ss, done, cs), done)
    ensures AllDealt(b, p, p2, ss, done, l, r) && cs[ss] - 1 == ce[ss]
  {
    forall c | 0 <= c < 256
      ensures |Preds(b, l, c)| + |Preds(b, r, c)| == LeftLanes(b, ss).hi[c] - LeftLanes(b, ss).lo[c]
    {
      LaneCount(b, rank, ss, l0, l, r0, r, y, c);
    }
    ScansDealt(b, ss, p1, p2, done, cs, ce, l, r);
    OthersKept(b, ss, p, p1, p2, done, cs, l);
  }

  /** A block of one byte value has only equal rotations. */
  lemma {:induction false} UniformEqual(b: seq<byte>, ss: int, x: int, y: int, h: nat)
    requires forall i :: 0 <= i < |b| ==> b[i] == ss
    requires 0 <= x < |b| && 0 <= y < |b|
    ensures Cmp(b, x, y, h) == 0
    decreases h
  {
    if h > 0 {
      UniformEqual(b, ss, Next(|b|, x), Next(|b|, y), h - 1);
    }
  }

  lemma UniformSorted(b: seq<byte>, rank: seq<int>, p: seq<int>, ss: int, k: nat)
    requires Ranked(b, rank) && InBuckets(b, p) && k < KEYS && forall i :: 0 <= i < |b| ==> b[i] == ss
    ensures BucketSorted(b, rank, p, k)
  {
    StartMono(b, k + 1, KEYS);
    forall x, y | Start(b, k) <= x < y <= Start(b, k + 1) - 1
      ensures KeyLe(rank, p[x], p[y])
    {
      UniformEqual(b, ss, p[x], p[y], |b|);
      assert RotLe(b, p[x], p[y]);
    }
  }

  lemma UniformWhole(b: seq<byte>, p: seq<int>, ss: int)
    requires |b| > 0 && InBuckets(b, p) && 0 <= ss < 256 && forall i :: 0 <= i < |b| ==> b[i] == ss
    ensures Start(b, 256 * ss + ss) == 0 && Start(b, 256 * ss + ss + 1) == |b|
  {
    StartMono(b, 256 * ss + ss + 1, KEYS);
    assert KeyAt(b, p[0]) == 256 * ss + ss && KeyAt(b, p[|p| - 1]) == 256 * ss + ss;
  }
}
