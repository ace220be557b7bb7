/** Step 2 of mainSort: once the buckets [ss, j], j != ss, are sorted, scanning
    big bucket ss from both ends yields every bucket [t, ss] in sorted order. */
module PointerScan {
  import opened Permutations
  import opened Rotations

  /** Predecessors, with first byte c, of the rotations in s, in order. */
  ghost function Preds(b: seq<byte>, s: seq<int>, c: int): (r: seq<int>)
    requires forall i :: 0 <= i < |s| ==> 0 <= s[i] < |b|
  {
    if s == [] then []
    else
      var x := Prev(|b|, s[|s| - 1]);
      Preds(b, s[..|s| - 1], c) + (if b[x] == c then [x] else [])
  }

  lemma PredsSnoc(b: seq<byte>, s: seq<int>, x: int, c: int)
    requires forall i :: 0 <= i < |s| ==> 0 <= s[i] < |b|
    requires 0 <= x < |b|
    ensures Preds(b, s + [x], c) == Preds(b, s, c) + (if b[Prev(|b|, x)] == c then [Prev(|b|, x)] else [])
  {
    assert (s + [x])[..|s|] == s;
  }

  /** Exactly the rotations with first byte c whose successor is in s. */
  lemma {:induction false} PredsMembers(b: seq<byte>, s: seq<int>, c: int, y: int)
    requires forall i :: 0 <= i < |s| ==> 0 <= s[i] < |b|
    ensures y in Preds(b, s, c) <==> 0 <= y < |b| && b[y] == c && Next(|b|, y) in s
    decreases |s|
  {
    if s != [] {
      var t, x := s[..|s| - 1], s[|s| - 1];
      PredsMembers(b, t, c, y);
      assert s == t + [x];
    }
  }

  lemma {:induction false} PredsInjective(b: seq<byte>, s: seq<int>, c: int)
    requires forall i :: 0 <= i < |s| ==> 0 <= s[i] < |b|
    requires Injective(s)
    ensures Injective(Preds(b, s, c))
    decreases |s|
  {
    if s != [] {
      var t, x := s[..|s| - 1], s[|s| - 1];
      PredsInjective(b, t, c);
      PredsMembers(b, t, c, Prev(|b|, x));
      assert x !in t;
    }
  }

  ghost predicate Ordered(ord: seq<int>, s: seq<int>) {
    && (forall i :: 0 <= i < |s| ==> 0 <= s[i] < |ord|)
    && forall u, v :: 0 <= u < v < |s| ==> ord[s[u]] <= ord[s[v]]
  }

  /** An order of the rotations, ascending or descending, that prepending the
      same byte preserves. */
  ghost predicate OrderOk(b: seq<byte>, ord: seq<int>) {
    && |ord| == |b|
    && forall x, y {:trigger Prev(|b|, x), Prev(|b|, y)} ::
         (0 <= x < |b| && 0 <= y < |b| && b[Prev(|b|, x)] == b[Prev(|b|, y)] && ord[x] <= ord[y]) ==>
           ord[Prev(|b|, x)] <= ord[Prev(|b|, y)]
  }

  lemma {:induction false} PredsOrdered(b: seq<byte>, ord: seq<int>, s: seq<int>, c: int)
    requires OrderOk(b, ord) && Ordered(ord, s)
    ensures Ordered(ord, Preds(b, s, c))
    decreases |s|
  {
    if s != [] {
      var t, x := s[..|s| - 1], s[|s| - 1];
      PredsOrdered(b, ord, t, c);
      var p := Preds(b, t, c);
      forall u | 0 <= u < |p|
        ensures b[Prev(|b|, x)] == c ==> ord[p[u]] <= ord[Prev(|b|, x)]
      {
        PredsMembers(b, t, c, p[u]);
        var y := Next(|b|, p[u]);
        var i :| 0 <= i < |t| && t[i] == y;
        assert ord[s[i]] <= ord[s[|s| - 1]];
        assert Prev(|b|, y) == p[u];
      }
    }
  }

  // ---- The queue of scanned rotations ----

  ghost predicate Headed(b: seq<byte>, ss: int, s: seq<int>) {
    forall i :: 0 <= i < |s| ==> 0 <= s[i] < |b| && b[s[i]] == ss
  }

  /** A member followed by another ss has its successor in s too. */
  ghost predicate Rooted(b: seq<byte>, ss: int, s: seq<int>) {
    && Headed(b, ss, s)
    && forall y {:trigger y in s} :: y in s && b[Next(|b|, y)] == ss ==> Next(|b|, y) in s
  }

  /** Where the scan starts: rotations that begin ss, then another byte. */
  ghost predicate Seeds(b: seq<byte>, ord: seq<int>, ss: int, q0: seq<int>) {
    && Headed(b, ss, q0) && OrderOk(b, ord)
    && (forall i :: 0 <= i < |q0| ==> b[Next(|b|, q0[i])] != ss)
    && forall i, y {:trigger q0[i], ord[y]} :: 0 <= i < |q0| && 0 <= y < |b| && b[y] == ss && b[Next(|b|, y)] == ss ==> ord[q0[i]] <= ord[y]
  }

  /** Every entry past the seeds was put there by an earlier one. */
  ghost predicate Grounded(b: seq<byte>, m: nat, q: seq<int>)
    requires forall i :: 0 <= i < |q| ==> 0 <= q[i] < |b|
  {
    forall i {:trigger q[i]} :: m <= i < |q| ==> exists a :: 0 <= a < i && q[a] == Next(|b|, q[i])
  }

  /** q is the seeds followed by the ss-predecessors of its first t entries. */
  ghost predicate Queue(b: seq<byte>, ord: seq<int>, ss: int, q0: seq<int>, q: seq<int>, t: nat, other: seq<int>) {
    && t <= |q| && Headed(b, ss, q) && Injective(q) && Ordered(ord, q) && (q0 == [] ==> q == [])
    && q == q0 + Preds(b, q[..t], ss) && Grounded(b, |q0|, q)
    && forall i :: 0 <= i < |q| ==> q[i] !in other
  }

  ghost function Grow(b: seq<byte>, ss: int, q: seq<int>, t: nat): (q': seq<int>)
    requires t < |q| && Headed(b, ss, q)
  {
    if b[Prev(|b|, q[t])] == ss then q + [Prev(|b|, q[t])] else q
  }

  lemma NewEntry(b: seq<byte>, ord: seq<int>, ss: int, q0: seq<int>, q: seq<int>, t: nat, other: seq<int>)
    requires Seeds(b, ord, ss, q0) && Queue(b, ord, ss, q0, q, t, other) && Rooted(b, ss, other) && t < |q|
    requires b[Prev(|b|, q[t])] == ss
    ensures Prev(|b|, q[t]) !in q && Prev(|b|, q[t]) !in other
  {
    var x := Prev(|b|, q[t]);
    assert forall i :: 0 <= i < |q0| ==> q0[i] != x;
    if x in Preds(b, q[..t], ss) {
      PredsMembers(b, q[..t], ss, x);
    }
  }

  lemma QueueStep(b: seq<byte>, ord: seq<int>, ss: int, q0: seq<int>, q: seq<int>, t: nat, other: seq<int>)
    requires Seeds(b, ord, ss, q0) && Queue(b, ord, ss, q0, q, t, other) && Rooted(b, ss, other) && t < |q|
    ensures Queue(b, ord, ss, q0, Grow(b, ss, q, t), t + 1, other)
  {
    assert q[..t + 1] == q[..t] + [q[t]];
    PredsSnoc(b, q[..t], q[t], ss);
    if b[Prev(|b|, q[t])] == ss {
      assert Preds(b, q[..t + 1], ss) == Preds(b, q[..t], ss) + [Prev(|b|, q[t])];
      NewEntry(b, ord, ss, q0, q, t, other);
      QueueAppend(b, ord, ss, q0, q, t, other, Prev(|b|, q[t]));
    } else {
      QueueStay(b, ord, ss, q0, q, t, other);
    }
  }

  lemma QueueStay(b: seq<byte>, ord: seq<int>, ss: int, q0: seq<int>, q: seq<int>, t: nat, other: seq<int>)
    requires Queue(b, ord, ss, q0, q, t, other) && t < |q|
    requires Preds(b, q[..t + 1], ss) == Preds(b, q[..t], ss)
    ensures Queue(b, ord, ss, q0, q, t + 1, other)
  {
  }

  lemma QueueAppend(b: seq<byte>, ord: seq<int>, ss: int, q0: seq<int>, q: seq<int>, t: nat, other: seq<int>, x: int)
    requires Seeds(b, ord, ss, q0) && Queue(b, ord, ss, q0, q, t, other) && t < |q|
    requires x == Prev(|b|, q[t]) && b[x] == ss && x !in q && x !in other
    requires Preds(b, q[..t + 1], ss) == Preds(b, q[..t], ss) + [x]
    ensures Queue(b, ord, ss, q0, q + [x], t + 1, other)
  {
    QueueOrdered(b, ord, ss, q0, q, t);
    GroundedSnoc(b, |q0|, q, t);
    AppendFacts(b, ss, q0, q, t, other, x);
  }

  lemma AppendFacts(b: seq<byte>, ss: int, q0: seq<int>, q: seq<int>, t: nat, other: seq<int>, x: int)
    requires Headed(b, ss, q) && Injective(q) && t < |q| && 0 <= x < |b| && b[x] == ss && x !in q && x !in other
    requires q == q0 + Preds(b, q[..t], ss) && Preds(b, q[..t + 1], ss) == Preds(b, q[..t], ss) + [x]
    requires forall i :: 0 <= i < |q| ==> q[i] !in other
    ensures Headed(b, ss, q + [x]) && Injective(q + [x])
    ensures q + [x] == q0 + Preds(b, (q + [x])[..t + 1], ss)
    ensures forall i :: 0 <= i < |q + [x]| ==> (q + [x])[i] !in other
  {
    assert (q + [x])[..t + 1] == q[..t + 1];
  }

  lemma GroundedSnoc(b: seq<byte>, m: nat, q: seq<int>, t: nat)
    requires forall i :: 0 <= i < |q| ==> 0 <= q[i] < |b|
    requires Grounded(b, m, q) && t < |q|
    ensures Grounded(b, m, q + [Prev(|b|, q[t])])
  {
    var q' := q + [Prev(|b|, q[t])];
    assert q'[t] == Next(|b|, q'[|q|]);
    forall i | m <= i < |q|
      ensures exists a :: 0 <= a < i && q'[a] == Next(|b|, q'[i])
    {
      assert q'[i] == q[i];
      var a :| 0 <= a < i && q[a] == Next(|b|, q[i]);
      assert q'[a] == q[a];
    }
  }

  lemma QueueOrdered(b: seq<byte>, ord: seq<int>, ss: int, q0: seq<int>, q: seq<int>, t: nat)
    requires Seeds(b, ord, ss, q0) && Headed(b, ss, q) && Ordered(ord, q) && t < |q|
    requires q == q0 + Preds(b, q[..t], ss) && b[Prev(|b|, q[t])] == ss
    ensures Ordered(ord, q + [Prev(|b|, q[t])])
  {
    var x := Prev(|b|, q[t]);
    var p := Preds(b, q[..t + 1], ss);
    assert q[..t + 1] == q[..t] + [q[t]];
    PredsSnoc(b, q[..t], q[t], ss);
    PredsOrdered(b, ord, q[..t + 1], ss);
    assert q + [x] == q0 + p;
    forall u | 0 <= u < |q|
      ensures ord[q[u]] <= ord[x]
    {
      if u < |q0| {
        assert q[u] == q0[u];
      } else {
        assert q[u] == p[u - |q0|] && p[|p| - 1] == x;
      }
    }
  }

  // ---- When the scan is over ----

  /** A finished queue contains its seeds and is closed under ss-predecessors. */
  ghost predicate Finished(b: seq<byte>, ord: seq<int>, ss: int, q0: seq<int>, q: seq<int>, other: seq<int>) {
    Queue(b, ord, ss, q0, q, |q|, other)
  }

  lemma FinishedRooted(b: seq<byte>, ord: seq<int>, ss: int, q0: seq<int>, q: seq<int>, other: seq<int>)
    requires Seeds(b, ord, ss, q0) && Finished(b, ord, ss, q0, q, other)
    ensures Rooted(b, ss, q)
  {
    assert q[..|q|] == q;
    forall y | y in q && b[Next(|b|, y)] == ss
      ensures Next(|b|, y) in q
    {
      assert y !in q0;
      PredsMembers(b, q, ss, y);
    }
  }

  lemma FinishedClosed(b: seq<byte>, ord: seq<int>, ss: int, q0: seq<int>, q: seq<int>, other: seq<int>, x: int)
    requires Finished(b, ord, ss, q0, q, other) && 0 <= x < |b| && b[x] == ss
    requires Next(|b|, x) in q
    ensures x in q
  {
    assert q[..|q|] == q;
    PredsMembers(b, q, ss, x);
  }

  /** Rotations decided by their first two bytes. */
  lemma SecondByte(b: seq<byte>, x: int, y: int)
    requires |b| >= 2 && 0 <= x < |b| && 0 <= y < |b|
    requires b[x] < b[y] || (b[x] == b[y] && b[Next(|b|, x)] < b[Next(|b|, y)])
    ensures RotLe(b, x, y)
  {
    CmpSplit(b, x, y, 1, |b| - 1);
  }

  /** Everything in the left queue comes before everything in the right one. */
  lemma {:induction false} LeftBeforeRight(b: seq<byte>, ss: int, m: nat, l: seq<int>, r: seq<int>, u: int, y: int)
    requires |b| >= 2 && Headed(b, ss, l) && Rooted(b, ss, r)
    requires Grounded(b, m, l)
    requires forall i :: 0 <= i < |l| ==> b[Next(|b|, l[i])] <= ss
    requires forall i :: 0 <= i < |l| && i < m ==> b[Next(|b|, l[i])] < ss
    requires forall i :: 0 <= i < |r| ==> b[Next(|b|, r[i])] >= ss
    requires 0 <= u < |l| && y in r
    ensures RotLe(b, l[u], y)
    decreases u
  {
    var n, x := |b|, l[u];
    if b[Next(n, x)] < b[Next(n, y)] {
      SecondByte(b, x, y);
    } else {
      var a :| 0 <= a < u && l[a] == Next(n, x);
      LeftBeforeRight(b, ss, m, l, r, a, Next(n, y));
      CmpPrefix(b, l[a], Next(n, y), n - 1, n);
    }
  }

  // ---- The scan on the array ----

  /** Positions of the rotations that start with bytes c, d. */
  ghost function Members(b: seq<byte>, c: int, d: int): set<int> {
    set x | 0 <= x < |b| && b[x] == c && b[Next(|b|, x)] == d
  }

  /** Predecessors of two disjoint queues fit together into their bucket. */
  lemma PredsFit(b: seq<byte>, ss: int, q: seq<int>, other: seq<int>, c: int)
    requires Headed(b, ss, q) && Headed(b, ss, other) && Injective(q) && Injective(other)
    requires forall i :: 0 <= i < |q| ==> q[i] !in other
    ensures |Preds(b, q, c)| + |Preds(b, other, c)| <= |Members(b, c, ss)|
    ensures |Preds(b, q, c)| + |Preds(b, other, c)| == |Members(b, c, ss)| ==>
              forall x :: x in Members(b, c, ss) ==> x in Preds(b, q, c) || x in Preds(b, other, c)
  {
    PredsInjective(b, q, c);
    PredsInjective(b, other, c);
    var p, r := Preds(b, q, c), Preds(b, other, c);
    forall i, j | 0 <= i < |p| && 0 <= j < |r|
      ensures p[i] != r[j]
    {
      PredsMembers(b, q, c, p[i]);
      PredsMembers(b, other, c, r[j]);
    }
    forall x | x in p + r
      ensures x in Members(b, c, ss)
    {
      PredsMembers(b, q, c, x);
      PredsMembers(b, other, c, x);
    }
    Covers(p + r, Members(b, c, ss));
  }

  function Place(up: bool, base: int, e: int): int {
    if up then base + e else base - e
  }

  /** The stretches of ptr the scan may write: lane c is what is left of bucket
      [c, ss]; lane ss lies inside big bucket ss, the others outside it. */
  datatype Lanes = Lanes(lo: seq<int>, hi: seq<int>, first: int, last: int) {
    ghost predicate Apart(n: nat, ss: int) {
      && |lo| == |hi| == 256 && 0 <= ss < 256
      && (forall c :: 0 <= c < 256 ==> 0 <= lo[c] <= hi[c] <= n)
      && (forall c, d :: 0 <= c < d < 256 ==> hi[c] <= lo[d])
      && (forall c :: 0 <= c < ss ==> hi[c] <= first)
      && (forall c :: ss < c < 256 ==> last <= lo[c])
      && 0 <= first <= lo[ss] && hi[ss] <= last <= n
    }

    function Base(up: bool, c: int): int
      requires |lo| == |hi| == 256 && 0 <= c < 256
    {
      if up then lo[c] else hi[c] - 1
    }

    function QueueBase(up: bool): int {
      if up then first else last - 1
    }

    ghost predicate In(c: int, i: int)
      requires |lo| == |hi| == 256 && 0 <= c < 256
    {
      lo[c] <= i < hi[c]
    }
  }

  /** The entries from `base` on, upwards or downwards, are those of s. */
  ghost predicate Holds(p: seq<int>, up: bool, base: int, s: seq<int>) {
    && (up ==> 0 <= base && base + |s| <= |p| && forall i {:trigger p[i]} :: base <= i < base + |s| ==> p[i] == s[i - base])
    && (!up ==> |s| <= base + 1 <= |p| && forall i {:trigger p[i]} :: base - |s| < i <= base ==> p[i] == s[base - i])
  }

  /** Lane c holds the predecessors with first byte c of the entries scanned so far. */
  ghost predicate Lane(b: seq<byte>, p: seq<int>, lanes: Lanes, cur: seq<int>, up: bool, q: seq<int>, t: nat, c: int)
    requires |lanes.lo| == |lanes.hi| == 256 == |cur| && 0 <= c < 256 && t <= |q|
    requires forall i :: 0 <= i < |q| ==> 0 <= q[i] < |b|
  {
    var s := Preds(b, q[..t], c);
    && |s| <= lanes.hi[c] - lanes.lo[c] && lanes.hi[c] <= |p| && 0 <= lanes.lo[c]
    && cur[c] == Place(up, lanes.Base(up, c), |s|)
    && Holds(p, up, lanes.Base(up, c), s)
  }

  ghost predicate Filling(b: seq<byte>, p: seq<int>, lanes: Lanes, cur: seq<int>, done: seq<bool>, up: bool, q: seq<int>, t: nat)
    requires |lanes.lo| == |lanes.hi| == 256 == |cur| == |done| && t <= |q|
    requires forall i :: 0 <= i < |q| ==> 0 <= q[i] < |b|
  {
    && (forall c :: 0 <= c < 256 && !done[c] ==> Lane(b, p, lanes, cur, up, q, t, c))
    && Holds(p, up, lanes.QueueBase(up), q)
  }

  /** Writing predecessor k at the end of its lane. */
  lemma FillStep(b: seq<byte>, ss: int, p: seq<int>, lanes: Lanes, cur: seq<int>, done: seq<bool>, up: bool,
                 q0: seq<int>, q: seq<int>, t: nat, k: int, p': seq<int>, cur': seq<int>, c: int)
    requires lanes.Apart(|p|, ss) && |cur| == |cur'| == |done| == 256 && t < |q| && Headed(b, ss, q)
    requires Filling(b, p, lanes, cur, done, up, q, t) && !done[ss]
    requires q == q0 + Preds(b, q[..t], ss) && Place(up, lanes.QueueBase(up), |q0|) == lanes.Base(up, ss)
    requires k == Prev(|b|, q[t]) && c == b[k] && !done[c]
    requires lanes.In(c, cur[c]) && p' == p[cur[c] := k]
    requires cur' == cur[c := Place(up, cur[c], 1)]
    ensures Filling(b, p', lanes, cur', done, up, Grow(b, ss, q, t), t + 1)
  {
    var q' := Grow(b, ss, q, t);
    forall d | 0 <= d < 256 && !done[d]
      ensures Lane(b, p', lanes, cur', up, q', t + 1, d)
    {
      LaneAfter(b, ss, p, lanes, cur, up, q, t, k, p', cur', c, d);
    }
    assert Lane(b, p, lanes, cur, up, q, t, ss);
    QueueWritten(p, p', lanes, up, q0, q, q', cur[c], k, c, ss);
  }

  lemma LaneAfter(b: seq<byte>, ss: int, p: seq<int>, lanes: Lanes, cur: seq<int>, up: bool,
                  q: seq<int>, t: nat, k: int, p': seq<int>, cur': seq<int>, c: int, d: int)
    requires lanes.Apart(|p|, ss) && |cur| == |cur'| == 256 && t < |q| && Headed(b, ss, q)
    requires 0 <= d < 256 && Lane(b, p, lanes, cur, up, q, t, d)
    requires k == Prev(|b|, q[t]) && c == b[k]
    requires lanes.In(c, cur[c]) && p' == p[cur[c] := k] && cur' == cur[c := Place(up, cur[c], 1)]
    ensures Lane(b, p', lanes, cur', up, Grow(b, ss, q, t), t + 1, d)
  {
    var q' := Grow(b, ss, q, t);
    assert q'[..t + 1] == q[..t] + [q[t]];
    PredsSnoc(b, q[..t], q[t], d);
    LaneStep(p, p', lanes, cur, cur', up, Preds(b, q[..t], d), k, c, d, ss);
  }

  /** One lane's contents after the write: longer if it is lane c, else unchanged. */
  lemma LaneStep(p: seq<int>, p': seq<int>, lanes: Lanes, cur: seq<int>, cur': seq<int>, up: bool, s: seq<int>, k: int, c: int, d: int, ss: int)
    requires lanes.Apart(|p|, ss) && |cur| == 256 && 0 <= c < 256 && 0 <= d < 256
    requires lanes.In(c, cur[c]) && p' == p[cur[c] := k] && cur' == cur[c := Place(up, cur[c], 1)]
    requires |s| <= lanes.hi[d] - lanes.lo[d]
    requires cur[d] == Place(up, lanes.Base(up, d), |s|) && Holds(p, up, lanes.Base(up, d), s)
    ensures var s' := if c == d then s + [k] else s;
            && cur'[d] == Place(up, lanes.Base(up, d), |s'|)
            && |s'| <= lanes.hi[d] - lanes.lo[d]
            && Holds(p', up, lanes.Base(up, d), s')
  {
    if c < d { assert lanes.hi[c] <= lanes.lo[d]; } else if d < c { assert lanes.hi[d] <= lanes.lo[c]; }
  }

  /** The scanned queue is disturbed by no write, only lengthened by those in lane ss. */
  lemma QueueWritten(p: seq<int>, p': seq<int>, lanes: Lanes, up: bool, q0: seq<int>, q: seq<int>, q': seq<int>, at: int, k: int, c: int, ss: int)
    requires lanes.Apart(|p|, ss) && 0 <= c < 256 && lanes.In(c, at) && p' == p[at := k]
    requires q' == if c == ss then q + [k] else q
    requires |q0| <= |q| && Place(up, lanes.QueueBase(up), |q0|) == lanes.Base(up, ss)
    requires c == ss ==> at == Place(up, lanes.QueueBase(up), |q|)
    requires |q| - |q0| <= lanes.hi[ss] - lanes.lo[ss]
    requires Holds(p, up, lanes.QueueBase(up), q)
    ensures Holds(p', up, lanes.QueueBase(up), q')
  {
    if c < ss { assert lanes.hi[c] <= lanes.first; } else if ss < c { assert lanes.last <= lanes.lo[c]; }
  }

  lemma FillSkip(b: seq<byte>, ss: int, p: seq<int>, lanes: Lanes, cur: seq<int>, done: seq<bool>, up: bool, q: seq<int>, t: nat)
    requires |lanes.lo| == |lanes.hi| == 256 == |cur| == |done| && t < |q| && Headed(b, ss, q)
    requires Filling(b, p, lanes, cur, done, up, q, t) && 0 <= ss < 256 && !done[ss]
    requires done[b[Prev(|b|, q[t])]]
    ensures Filling(b, p, lanes, cur, done, up, q, t + 1) && Grow(b, ss, q, t) == q
  {
    assert q[..t + 1] == q[..t] + [q[t]];
    forall d | 0 <= d < 256 && !done[d]
      ensures Lane(b, p, lanes, cur, up, q, t + 1, d)
    {
      assert Lane(b, p, lanes, cur, up, q, t, d);
      PredsSnoc(b, q[..t], q[t], d);
    }
  }

  /** No lane in use contains place i. */
  ghost predicate OutsideLanes(lanes: Lanes, done: seq<bool>, i: int)
    requires |lanes.lo| == |lanes.hi| == 256 == |done|
  {
    forall c :: 0 <= c < 256 && !done[c] ==> !lanes.In(c, i)
  }

  ghost predicate Kept(p: seq<int>, p': seq<int>, lanes: Lanes, done: seq<bool>)
    requires |lanes.lo| == |lanes.hi| == 256 == |done| && |p| == |p'|
  {
    forall i :: 0 <= i < |p| && OutsideLanes(lanes, done, i) ==> p'[i] == p[i]
  }

  /** The room left in each lane is what bucket [c, ss] holds less what the other queue supplies. */
  ghost predicate Roomy(b: seq<byte>, ss: int, lanes: Lanes, done: seq<bool>, other: seq<int>)
    requires |lanes.lo| == |lanes.hi| == 256 == |done|
    requires forall i :: 0 <= i < |other| ==> 0 <= other[i] < |b|
  {
    forall c :: 0 <= c < 256 && !done[c] ==> lanes.hi[c] - lanes.lo[c] + |Preds(b, other, c)| == |Members(b, c, ss)|
  }

  lemma LaneOpen(b: seq<byte>, ord: seq<int>, ss: int, p: seq<int>, lanes: Lanes, cur: seq<int>, done: seq<bool>, up: bool,
                 q0: seq<int>, q: seq<int>, t: nat, other: seq<int>, c: int)
    requires |lanes.lo| == |lanes.hi| == 256 == |cur| == |done| && t < |q|
    requires Queue(b, ord, ss, q0, q, t, other) && Headed(b, ss, other) && Injective(other)
    requires Roomy(b, ss, lanes, done, other) && 0 <= c < 256 && !done[c]
    requires Lane(b, p, lanes, cur, up, q, t, c) && c == b[Prev(|b|, q[t])]
    ensures lanes.In(c, cur[c])
  {
    assert q[..t + 1] == q[..t] + [q[t]];
    PredsSnoc(b, q[..t], q[t], c);
    PredsFit(b, ss, q[..t + 1], other, c);
  }

  /** What stays fixed during one scan. */
  ghost predicate Context(b: seq<byte>, ord: seq<int>, ss: int, n: nat, lanes: Lanes, done: seq<bool>, up: bool, q0: seq<int>, other: seq<int>) {
    && n == |b| && |done| == 256 && lanes.Apart(n, ss) && !done[ss]
    && Seeds(b, ord, ss, q0) && Rooted(b, ss, other) && Injective(other) && Roomy(b, ss, lanes, done, other)
    && Place(up, lanes.QueueBase(up), |q0|) == lanes.Base(up, ss)
  }

  /** What the scan maintains. */
  ghost predicate Scanning(b: seq<byte>, ord: seq<int>, ss: int, p: seq<int>, lanes: Lanes, cur: seq<int>, done: seq<bool>, up: bool,
                           q0: seq<int>, q: seq<int>, t: nat, other: seq<int>)
    requires |lanes.lo| == |lanes.hi| == 256 == |done|
  {
    |cur| == 256 && Queue(b, ord, ss, q0, q, t, other) && Filling(b, p, lanes, cur, done, up, q, t)
  }

  /** Write predecessor k of the entry scanned at the end of its lane. */
  method Deal(ptr: array<int>, cur: array<int>, done: seq<bool>, up: bool, ss: int, k: int, c: int,
              ghost b: seq<byte>, ghost ord: seq<int>, ghost lanes: Lanes, ghost q0: seq<int>, ghost other: seq<int>,
              ghost q: seq<int>, ghost t: nat)
    requires ptr != cur && cur.Length == 256 && Context(b, ord, ss, ptr.Length, lanes, done, up, q0, other)
    requires Scanning(b, ord, ss, ptr[..], lanes, cur[..], done, up, q0, q, t, other) && t < |q|
    requires k == Prev(|b|, q[t]) && c == b[k] && !done[c]
    modifies ptr, cur
    ensures Filling(b, ptr[..], lanes, cur[..], done, up, Grow(b, ss, q, t), t + 1)
    ensures Kept(old(ptr[..]), ptr[..], lanes, done)
  {
    ghost var p, cu := ptr[..], cur[..];
    LaneOpen(b, ord, ss, p, lanes, cu, done, up, q0, q, t, other, c);
    ptr[cur[c]] := k;
    cur[c] := if up then cur[c] + 1 else cur[c] - 1;
    assert ptr[..] == p[cu[c] := k];
    assert cur[..] == cu[c := Place(up, cu[c], 1)];
    FillStep(b, ss, p, lanes, cu, done, up, q0, q, t, k, ptr[..], cur[..], c);
  }

  /** The scan goes on exactly while the queue has unread entries. */
  lemma EndOfLane(b: seq<byte>, ord: seq<int>, ss: int, p: seq<int>, lanes: Lanes, cur: seq<int>, done: seq<bool>, up: bool,
                  q0: seq<int>, q: seq<int>, t: nat, other: seq<int>)
    requires Context(b, ord, ss, |p|, lanes, done, up, q0, other)
    requires Scanning(b, ord, ss, p, lanes, cur, done, up, q0, q, t, other)
    ensures cur[ss] == Place(up, lanes.QueueBase(up), |q|)
    ensures |q| <= lanes.last - lanes.first
  {
    assert Lane(b, p, lanes, cur, up, q, t, ss);
  }

  /** The scan stands at place j, entry t of the queue. */
  ghost predicate At(b: seq<byte>, ord: seq<int>, ss: int, p0: seq<int>, p: seq<int>, lanes: Lanes, cur: seq<int>, done: seq<bool>, up: bool,
                     q0: seq<int>, q: seq<int>, t: nat, other: seq<int>, j: int)
  {
    && Context(b, ord, ss, |p|, lanes, done, up, q0, other) && |p0| == |p|
    && Scanning(b, ord, ss, p, lanes, cur, done, up, q0, q, t, other)
    && Kept(p0, p, lanes, done) && (t == 0 ==> p == p0)
    && j == Place(up, lanes.QueueBase(up), t) && cur[ss] == Place(up, lanes.QueueBase(up), |q|)
    && t <= |q| <= lanes.last - lanes.first
  }

  lemma QueueAt(p: seq<int>, lanes: Lanes, up: bool, q: seq<int>, t: nat, j: int)
    requires Holds(p, up, lanes.QueueBase(up), q) && t < |q| && j == Place(up, lanes.QueueBase(up), t)
    ensures 0 <= j < |p| && p[j] == q[t]
  {
  }

  /** Scan one entry. */
  method ScanOne(ptr: array<int>, block: seq<byte>, done: seq<bool>, cur: array<int>, up: bool, j: int, ss: int, n: int,
                 ghost b: seq<byte>, ghost ord: seq<int>, ghost lanes: Lanes, ghost q0: seq<int>, ghost other: seq<int>,
                 ghost q: seq<int>, ghost t: nat, ghost p0: seq<int>)
    returns (ghost q': seq<int>)
    requires ptr != cur && ptr.Length == n <= |block| && block[..n] == b && cur.Length == 256
    requires At(b, ord, ss, p0, ptr[..], lanes, cur[..], done, up, q0, q, t, other, j) && t < |q|
    modifies ptr, cur
    ensures At(b, ord, ss, p0, ptr[..], lanes, cur[..], done, up, q0, q', t + 1, other, Place(up, j, 1))
  {
    q' := Grow(b, ss, q, t);
    QueueStep(b, ord, ss, q0, q, t, other);
    QueueAt(ptr[..], lanes, up, q, t, j);
    var k := ptr[j] - 1;
    if k < 0 { k := k + n; }
    var c1 := block[k];
    assert c1 == block[..n][k] && k == Prev(n, q[t]);
    if !done[c1] {
      Deal(ptr, cur, done, up, ss, k, c1, b, ord, lanes, q0, other, q, t);
    } else {
      FillSkip(b, ss, ptr[..], lanes, cur[..], done, up, q, t);
    }
    EndOfLane(b, ord, ss, ptr[..], lanes, cur[..], done, up, q0, q', t + 1, other);
  }

  lemma StartScanning(b: seq<byte>, ord: seq<int>, ss: int, p: seq<int>, lanes: Lanes, cur: seq<int>, done: seq<bool>, up: bool,
                      q0: seq<int>, other: seq<int>)
    requires lanes.Apart(|p|, ss) && |cur| == |done| == 256 && Seeds(b, ord, ss, q0) && Injective(q0) && Ordered(ord, q0)
    requires forall i :: 0 <= i < |q0| ==> q0[i] !in other
    requires forall c :: 0 <= c < 256 && !done[c] ==> cur[c] == lanes.Base(up, c)
    requires Holds(p, up, lanes.QueueBase(up), q0)
    ensures Scanning(b, ord, ss, p, lanes, cur, done, up, q0, q0, 0, other)
  {
    assert q0[..0] == [];
    forall c | 0 <= c < 256 && !done[c]
      ensures Lane(b, p, lanes, cur, up, q0, 0, c)
    {
      assert Preds(b, q0[..0], c) == [];
    }
  }

  /** Scan from the end of big bucket ss towards the moving end of lane ss,
      dealing each predecessor whose big bucket is not done into its lane. */
  method Scan(ptr: array<int>, block: seq<byte>, done: seq<bool>, cur: array<int>, up: bool, from: int, ss: int, n: int,
              ghost b: seq<byte>, ghost ord: seq<int>, ghost lanes: Lanes, ghost q0: seq<int>, ghost other: seq<int>)
    returns (ghost q: seq<int>)
    requires ptr != cur && ptr.Length == n <= |block| && block[..n] == b && cur.Length == 256
    requires Context(b, ord, ss, n, lanes, done, up, q0, other) && from == lanes.QueueBase(up)
    requires Scanning(b, ord, ss, ptr[..], lanes, cur[..], done, up, q0, q0, 0, other)
    modifies ptr, cur
    ensures Scanning(b, ord, ss, ptr[..], lanes, cur[..], done, up, q0, q, |q|, other)
    ensures Kept(old(ptr[..]), ptr[..], lanes, done)
    ensures q == [] ==> ptr[..] == old(ptr[..])
  {
    q := q0;
    ghost var t := 0;
    var j := from;
    EndOfLane(b, ord, ss, ptr[..], lanes, cur[..], done, up, q0, q, t, other);
    while if up then j < cur[ss] else j > cur[ss]
      invariant At(b, ord, ss, old(ptr[..]), ptr[..], lanes, cur[..], done, up, q0, q, t, other, j)
      decreases lanes.last - lanes.first - t
    {
      q := ScanOne(ptr, block, done, cur, up, j, ss, n, b, ord, lanes, q0, other, q, t, old(ptr[..]));
      t := t + 1;
      j := if up then j + 1 else j - 1;
    }
    assert t == |q|;
  }
}
