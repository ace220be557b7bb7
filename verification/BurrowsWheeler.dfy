/** The last column of the sorted rotations, the vector T the decoder derives
    from it, and the walk that gives the block back. */
module BurrowsWheeler {
  import opened Counting
  import opened Permutations
  import opened Rotations

  /** The last column: the byte before each sorted rotation. */
  function LastColumn(b: seq<byte>, p: seq<int>): (c: seq<byte>)
    requires |p| == |b|
    requires forall i :: 0 <= i < |p| ==> 0 <= p[i] < |b|
    ensures |c| == |b|
  {
    seq(|b|, i requires 0 <= i < |b| => b[Prev(|b|, p[i])])
  }

  /** Where the stable sort by byte sends column entry i. */
  function TVector(s: seq<byte>): (t: seq<int>)
    ensures |t| == |s|
    ensures forall i :: 0 <= i < |s| ==> t[i] == Slot(s, i)
  {
    seq(|s|, i requires 0 <= i < |s| => Slot(s, i))
  }

  lemma TVectorIsPerm(s: seq<byte>)
    ensures IsPerm(TVector(s))
  {
    forall i | 0 <= i < |s|
      ensures 0 <= Slot(s, i) < |s|
    {
      SlotRange(s, i, 256);
    }
    forall i, j | 0 <= i < j < |s|
      ensures Slot(s, i) != Slot(s, j)
    {
      if s[i] <= s[j] { SlotOrder(s, i, j); } else { SlotOrder(s, j, i); }
    }
  }

  /** T to the minus one: the column entry that lands at each sorted place. */
  ghost function TInverse(s: seq<byte>): (q: seq<int>)
    ensures IsPerm(q) && |q| == |s|
    ensures forall i :: 0 <= i < |s| ==> 0 <= Slot(s, i) < |s| && q[Slot(s, i)] == i
    ensures forall k :: 0 <= k < |s| ==> Slot(s, q[k]) == k
  {
    TVectorIsPerm(s);
    InverseIsPerm(TVector(s));
    Inverse(TVector(s))
  }

  /** The m bytes met following T^(-1) from column entry t. */
  ghost function Walk(s: seq<byte>, t: int, m: nat): (out: seq<byte>)
    requires 0 <= t < |s|
    ensures |out| == m
    decreases m
  {
    if m == 0 then [] else [s[t]] + Walk(s, TInverse(s)[t], m - 1)
  }

  /** What the decoder reads off a column from the given start index. */
  ghost function Unsort(s: seq<byte>, orig: int): (b: seq<byte>)
    requires 0 <= orig < |s|
    ensures |b| == |s|
  {
    Walk(s, TInverse(s)[orig], |s|)
  }

  /** The rotations one step back from the column, taken in T order. */
  ghost function Stepped(b: seq<byte>, p: seq<int>): (q: seq<int>)
    requires RotationSorted(b, p)
    ensures |q| == |b|
  {
    var c := LastColumn(b, p);
    seq(|b|, k requires 0 <= k < |b| => Prev(|b|, p[TInverse(c)[k]]))
  }

  lemma SteppedOrdered(b: seq<byte>, p: seq<int>, k: int, l: int)
    requires RotationSorted(b, p) && 0 <= k < l < |b|
    ensures RotLe(b, Stepped(b, p)[k], Stepped(b, p)[l])
  {
    var n, c := |b|, LastColumn(b, p);
    var i, j := TInverse(c)[k], TInverse(c)[l];
    assert c[i] < c[j] || (c[i] == c[j] && i < j) by {
      if c[j] < c[i] || (c[i] == c[j] && j < i) {
        SlotOrder(c, j, i);
      }
    }
    if c[i] == c[j] {
      CmpPrefix(b, p[i], p[j], n - 1, n);
    }
  }

  lemma SteppedSorted(b: seq<byte>, p: seq<int>)
    requires RotationSorted(b, p)
    ensures RotationSorted(b, Stepped(b, p))
  {
    forall k, l | 0 <= k < l < |b|
      ensures Stepped(b, p)[k] != Stepped(b, p)[l]
      ensures RotLe(b, Stepped(b, p)[k], Stepped(b, p)[l])
    {
      SteppedOrdered(b, p, k, l);
    }
  }

  /** One step of the walk: the entry reached is preceded by the byte that
      starts rotation p[k], and heads a rotation equal to the next one. */
  lemma WalkStep(b: seq<byte>, p: seq<int>, k: int)
    requires RotationSorted(b, p) && 0 <= k < |b|
    ensures var c := LastColumn(b, p);
            && c[TInverse(c)[k]] == b[p[k]]
            && Cmp(b, p[TInverse(c)[k]], Next(|b|, p[k]), |b|) == 0
  {
    SteppedSorted(b, p);
    SortedPermsAgree(b, Stepped(b, p), p, |b|, k);
    EqualNext(b, Stepped(b, p)[k], p[k]);
  }

  lemma WalkFrom(b: seq<byte>, p: seq<int>, c: seq<byte>, k: int, pos: int)
    requires RotationSorted(b, p) && c == LastColumn(b, p)
    requires 0 <= k < |b| && 0 <= pos < |b|
    requires Cmp(b, p[k], pos, |b|) == 0
    ensures c[TInverse(c)[k]] == b[pos]
    ensures Cmp(b, p[TInverse(c)[k]], Next(|b|, pos), |b|) == 0
  {
    WalkStep(b, p, k);
    EqualNext(b, p[k], pos);
    EqualTrans(b, p[TInverse(c)[k]], Next(|b|, p[k]), Next(|b|, pos));
  }

  lemma WalkOn(b: seq<byte>, c: seq<byte>, t: int, pos: int, m: nat)
    requires 0 <= t < |c| && m > 0 && 0 <= pos && pos + m <= |b| && c[t] == b[pos]
    requires Walk(c, TInverse(c)[t], m - 1) == b[pos + 1..pos + m]
    ensures Walk(c, t, m) == b[pos..pos + m]
  {
    assert b[pos..pos + m] == [b[pos]] + b[pos + 1..pos + m];
  }

  /** Following T^(-1) one step on, while rotation p[k] is equal to rotation pos. */
  ghost predicate Tracks(b: seq<byte>, p: seq<int>, c: seq<byte>, k: int, pos: int) {
    0 <= k < |b| == |p| == |c| && 0 <= pos < |b| && 0 <= p[k] < |b| && Cmp(b, p[k], pos, |b|) == 0
  }

  lemma TracksOn(b: seq<byte>, p: seq<int>, c: seq<byte>, k: int, pos: int) returns (t: int)
    requires RotationSorted(b, p) && c == LastColumn(b, p) && Tracks(b, p, c, k, pos)
    ensures t == TInverse(c)[k] && 0 <= t < |c| && c[t] == b[pos] && Tracks(b, p, c, t, Next(|b|, pos))
  {
    WalkFrom(b, p, c, k, pos);
    t := TInverse(c)[k];
  }

  lemma {:induction false} WalkReads(b: seq<byte>, p: seq<int>, c: seq<byte>, k: int, pos: int, m: nat)
    requires RotationSorted(b, p) && c == LastColumn(b, p) && Tracks(b, p, c, k, pos) && pos + m <= |b|
    ensures Walk(c, TInverse(c)[k], m) == b[pos..pos + m]
    decreases m
  {
    if m > 0 {
      var t := TracksOn(b, p, c, k, pos);
      if m > 1 {
        WalkReads(b, p, c, t, pos + 1, m - 1);
      }
      WalkOn(b, c, t, pos, m);
    }
  }

  lemma EqualTrans(b: seq<byte>, i: int, j: int, k: int)
    requires 0 <= i < |b| && 0 <= j < |b| && 0 <= k < |b|
    requires Cmp(b, i, j, |b|) == 0 && Cmp(b, j, k, |b|) == 0
    ensures Cmp(b, i, k, |b|) == 0
  {
    CmpTrans(b, i, j, k, |b|);
  }

  /** The transform is invertible from its last column and the index of
      rotation 0, however the sorter broke ties and however many cycles T has. */
  lemma UnsortLastColumn(b: seq<byte>, p: seq<int>, orig: int)
    requires RotationSorted(b, p) && 0 <= orig < |b| && p[orig] == 0
    ensures Unsort(LastColumn(b, p), orig) == b
  {
    CmpRefl(b, 0, |b|);
    WalkReads(b, p, LastColumn(b, p), orig, 0, |b|);
  }

  /** Every correct sorter yields the same column, whatever its tie-breaking. */
  lemma LastColumnUnique(b: seq<byte>, p: seq<int>, q: seq<int>)
    requires RotationSorted(b, p) && RotationSorted(b, q)
    ensures LastColumn(b, p) == LastColumn(b, q)
  {
    forall i | 0 <= i < |b|
      ensures b[Prev(|b|, p[i])] == b[Prev(|b|, q[i])]
    {
      SortedPermsAgree(b, p, q, |b|, i);
      EqualPrev(b, p[i], q[i]);
    }
  }

  lemma EqualPrev(b: seq<byte>, i: int, j: int)
    requires 0 <= i < |b| && 0 <= j < |b|
    requires Cmp(b, i, j, |b|) == 0
    ensures b[Prev(|b|, i)] == b[Prev(|b|, j)]
  {
    var n := |b|;
    EqualForever(b, i, j, n);
    CmpSplit(b, i, j, n - 1, 1);
    AdvanceIs(n, i, n - 1);
    AdvanceIs(n, j, n - 1);
  }
}
