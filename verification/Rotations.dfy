/** The order of the cyclic rotations of a block, which both block sorters
    compute and the inverse transform relies on. */
module Rotations {
  import opened Permutations

  type byte = x: int | 0 <= x < 256

  function Next(n: nat, i: int): (r: int)
    requires 0 <= i < n
    ensures 0 <= r < n
  {
    if i + 1 == n then 0 else i + 1
  }

  function Prev(n: nat, i: int): (r: int)
    requires 0 <= i < n
    ensures 0 <= r < n && Next(n, r) == i
  {
    if i == 0 then n - 1 else i - 1
  }

  /** The position h steps further round the block. */
  ghost function Advance(n: nat, i: int, h: nat): (r: int)
    requires 0 <= i < n
    ensures 0 <= r < n
    decreases h
  {
    if h == 0 then i else Advance(n, Next(n, i), h - 1)
  }

  lemma {:induction false} AdvanceIs(n: nat, i: int, h: nat)
    requires 0 <= i < n && h <= n
    ensures Advance(n, i, h) == if i + h < n then i + h else i + h - n
    decreases h
  {
    if h > 0 && n > 1 {
      AdvanceIs(n, Next(n, i), h - 1);
    }
  }

  lemma {:induction false} AdvanceAdd(n: nat, i: int, g: nat, h: nat)
    requires 0 <= i < n
    ensures Advance(n, Advance(n, i, g), h) == Advance(n, i, g + h)
    decreases g
  {
    if g > 0 {
      AdvanceAdd(n, Next(n, i), g - 1, h);
    }
  }

  /** Sign of the comparison of the first h bytes of rotations i and j. */
  ghost function Cmp(b: seq<byte>, i: int, j: int, h: nat): (r: int)
    requires 0 <= i < |b| && 0 <= j < |b|
    ensures -1 <= r <= 1
    decreases h
  {
    if h == 0 then 0
    else if b[i] < b[j] then -1
    else if b[i] > b[j] then 1
    else Cmp(b, Next(|b|, i), Next(|b|, j), h - 1)
  }

  /** Rotation i does not come after rotation j. */
  ghost predicate RotLe(b: seq<byte>, i: int, j: int)
    requires 0 <= i < |b| && 0 <= j < |b|
  {
    Cmp(b, i, j, |b|) <= 0
  }

  /** p lists all rotations in order of their first h bytes. */
  ghost predicate SortedTo(b: seq<byte>, p: seq<int>, h: nat) {
    && |p| == |b| && IsPerm(p)
    && forall i, j :: 0 <= i < j < |p| ==> Cmp(b, p[i], p[j], h) <= 0
  }

  /** The order a block sorter must produce; equal rotations come in any order. */
  ghost predicate RotationSorted(b: seq<byte>, p: seq<int>) {
    SortedTo(b, p, |b|)
  }

  lemma {:induction false} CmpRefl(b: seq<byte>, i: int, h: nat)
    requires 0 <= i < |b|
    ensures Cmp(b, i, i, h) == 0
    decreases h
  {
    if h > 0 {
      CmpRefl(b, Next(|b|, i), h - 1);
    }
  }

  lemma {:induction false} CmpAnti(b: seq<byte>, i: int, j: int, h: nat)
    requires 0 <= i < |b| && 0 <= j < |b|
    ensures Cmp(b, i, j, h) == -Cmp(b, j, i, h)
    decreases h
  {
    if h > 0 {
      CmpAnti(b, Next(|b|, i), Next(|b|, j), h - 1);
    }
  }

  lemma {:induction false} CmpTrans(b: seq<byte>, i: int, j: int, k: int, h: nat)
    requires 0 <= i < |b| && 0 <= j < |b| && 0 <= k < |b|
    requires Cmp(b, i, j, h) <= 0 && Cmp(b, j, k, h) <= 0
    ensures Cmp(b, i, k, h) <= 0
    ensures Cmp(b, i, k, h) == 0 <==> Cmp(b, i, j, h) == 0 && Cmp(b, j, k, h) == 0
    decreases h
  {
    if h > 0 && b[i] == b[j] && b[j] == b[k] {
      CmpTrans(b, Next(|b|, i), Next(|b|, j), Next(|b|, k), h - 1);
    }
  }

  /** Comparing g + h bytes is comparing g bytes and, on a tie, h more. */
  lemma {:induction false} CmpSplit(b: seq<byte>, i: int, j: int, g: nat, h: nat)
    requires 0 <= i < |b| && 0 <= j < |b|
    ensures Cmp(b, i, j, g + h) ==
            if Cmp(b, i, j, g) != 0 then Cmp(b, i, j, g)
            else Cmp(b, Advance(|b|, i, g), Advance(|b|, j, g), h)
    decreases g
  {
    if g > 0 && b[i] == b[j] {
      CmpSplit(b, Next(|b|, i), Next(|b|, j), g - 1, h);
    }
  }

  lemma CmpPrefix(b: seq<byte>, i: int, j: int, g: nat, h: nat)
    requires 0 <= i < |b| && 0 <= j < |b| && g <= h
    ensures Cmp(b, i, j, g) != 0 ==> Cmp(b, i, j, h) == Cmp(b, i, j, g)
    ensures Cmp(b, i, j, h) <= 0 ==> Cmp(b, i, j, g) <= 0
    ensures Cmp(b, i, j, h) == 0 ==> Cmp(b, i, j, g) == 0
  {
    CmpSplit(b, i, j, g, h - g);
  }

  lemma AllRound(n: nat, i: int)
    requires 0 <= i < n
    ensures Advance(n, Next(n, i), n - 1) == i
  {
    AdvanceIs(n, i, n);
  }

  lemma CmpRest(b: seq<byte>, i: int, j: int, h: nat)
    requires 0 <= i < |b| && 0 <= j < |b| && h > 0 && Cmp(b, i, j, h) == 0
    ensures b[i] == b[j] && Cmp(b, Next(|b|, i), Next(|b|, j), h - 1) == 0
  {
  }

  lemma CmpOne(b: seq<byte>, i: int, j: int)
    requires 0 <= i < |b| && 0 <= j < |b| && b[i] == b[j]
    ensures Cmp(b, i, j, 1) == 0
  {
  }

  /** Equal rotations stay equal one step on: the last byte compared wraps round. */
  lemma EqualNext(b: seq<byte>, i: int, j: int)
    requires 0 <= i < |b| && 0 <= j < |b|
    requires Cmp(b, i, j, |b|) == 0
    ensures b[i] == b[j]
    ensures Cmp(b, Next(|b|, i), Next(|b|, j), |b|) == 0
  {
    var n := |b|;
    CmpRest(b, i, j, n);
    CmpOne(b, i, j);
    AllRound(n, i);
    AllRound(n, j);
    CmpSplit(b, Next(n, i), Next(n, j), n - 1, 1);
  }

  /** Rotations with more than |b| equal bytes are equal for ever. */
  lemma {:induction false} EqualForever(b: seq<byte>, i: int, j: int, h: nat)
    requires 0 <= i < |b| && 0 <= j < |b|
    requires Cmp(b, i, j, |b|) == 0
    ensures Cmp(b, i, j, h) == 0
    decreases h
  {
    if h > 0 {
      EqualNext(b, i, j);
      EqualForever(b, Next(|b|, i), Next(|b|, j), h - 1);
    }
  }

  /** Ties apart, the rotation order is unique: two sorted permutations agree
      position by position up to equal rotations. */
  lemma SortedPermsAgree(b: seq<byte>, p: seq<int>, q: seq<int>, h: nat, k: int)
    requires SortedTo(b, p, h) && SortedTo(b, q, h)
    requires 0 <= k < |b|
    ensures Cmp(b, p[k], q[k], h) == 0
  {
    NotBefore(b, p, q, h, k);
    NotBefore(b, q, p, h, k);
    CmpAnti(b, p[k], q[k], h);
  }

  lemma NotBefore(b: seq<byte>, p: seq<int>, q: seq<int>, h: nat, k: int)
    requires SortedTo(b, p, h) && SortedTo(b, q, h)
    requires 0 <= k < |b|
    ensures Cmp(b, p[k], q[k], h) >= 0
  {
    if Cmp(b, p[k], q[k], h) < 0 {
      // Then the first k + 1 entries of p all lie among the first k of q.
      forall x | x in p[..k + 1]
        ensures x in q[..k]
      {
        var i :| 0 <= i < k + 1 && p[i] == x;
        PermOnto(q, x);
        var j :| 0 <= j < |q| && q[j] == x;
        if j >= k {
          CmpRefl(b, p[k], h);
          CmpRefl(b, q[k], h);
          CmpTrans(b, q[k], x, p[k], h);
          CmpAnti(b, p[k], q[k], h);
        }
      }
      CardElems(q[..k]);
      Covers(p[..k + 1], Elems(q[..k]));
    }
  }
}
