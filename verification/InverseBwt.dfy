/**
 * How the decoder walks from column entry to column entry: the packed table of the FAST
 * decompressor, and the SMALL one's 20-bit links, reversed in place along one cycle, with the
 * byte found by binary search.
 */
module InverseBwt {
  import opened BurrowsWheeler
  import opened Counting
  import opened Permutations
  import opened Rotations

  /** Following the links q from t, m times. */
  ghost function Iter(q: seq<int>, t: int, m: nat): (r: int)
    requires 0 <= t < |q| && forall i :: 0 <= i < |q| ==> 0 <= q[i] < |q|
    ensures 0 <= r < |q|
  {
    if m == 0 then t else q[Iter(q, t, m - 1)]
  }

  lemma {:induction false} IterFront(q: seq<int>, t: int, m: nat)
    requires 0 <= t < |q| && forall i :: 0 <= i < |q| ==> 0 <= q[i] < |q|
    ensures Iter(q, q[t], m) == Iter(q, t, m + 1)
    decreases m
  {
    if m > 0 {
      IterFront(q, t, m - 1);
    }
  }

  lemma {:induction false} WalkIter(col: seq<byte>, q: seq<int>, t: int, m: nat, k: nat)
    requires q == TInverse(col) && 0 <= t < |col| && k < m
    ensures Walk(col, t, m)[k] == col[Iter(q, t, k)]
    decreases k
  {
    if k > 0 {
      WalkBeyond(col, t, m, k);
      WalkIter(col, q, q[t], m - 1, k - 1);
      IterFront(q, t, k - 1);
    }
  }

  lemma WalkBeyond(col: seq<byte>, t: int, m: nat, k: nat)
    requires 0 <= t < |col| && 0 < k < m
    ensures Walk(col, t, m)[k] == Walk(col, TInverse(col)[t], m - 1)[k - 1]
  {
    assert Walk(col, t, m) == [col[t]] + Walk(col, TInverse(col)[t], m - 1);
  }

  /** cftab: how many column bytes are smaller than each byte value. */
  ghost predicate Cumulative(cftab: seq<int>, col: seq<byte>) {
    |cftab| == 257 && forall c :: 0 <= c <= 256 ==> cftab[c] == Smaller(col, c)
  }

  /** unzftab holds the byte counts, so all three of the source's sanity checks pass. */
  lemma TablesSane(col: seq<byte>)
    ensures forall c :: 0 <= c < 256 ==> 0 <= Occ(col, c, |col|) <= |col|
    ensures forall c :: 0 <= c <= 256 ==> 0 <= Smaller(col, c) <= |col|
    ensures forall c :: 1 <= c <= 256 ==> Smaller(col, c - 1) <= Smaller(col, c)
    ensures Smaller(col, 0) == 0 && Smaller(col, 256) == |col|
  {
    SmallerTotal(col, 256);
    forall c | 0 <= c <= 256
      ensures Smaller(col, c) <= |col|
    {
      SmallerMono(col, c, 256);
    }
    forall c | 0 <= c < 256
      ensures Occ(col, c, |col|) <= |col|
    {
      SmallerMono(col, c + 1, 256);
    }
  }

  /** Builds cftab from the byte counts. */
  method Accumulate(unzftab: array<int>, ghost col: seq<byte>) returns (cftab: array<int>)
    requires unzftab.Length == 256 && forall c :: 0 <= c < 256 ==> unzftab[c] == Occ(col, c, |col|)
    ensures fresh(cftab) && Cumulative(cftab[..], col)
  {
    cftab := new int[257];
    cftab[0] := 0;
    for i := 1 to 257
      invariant cftab[0] == 0 && forall c :: 1 <= c < i ==> cftab[c] == Occ(col, c - 1, |col|)
    {
      cftab[i] := unzftab[i - 1];
    }
    for i := 1 to 257
      invariant forall c :: 0 <= c < i ==> cftab[c] == Smaller(col, c)
      invariant forall c :: i <= c <= 256 ==> cftab[c] == Occ(col, c - 1, |col|)
    {
      cftab[i] := cftab[i] + cftab[i - 1];
    }
  }

  /** Entries 0..i have been sent to their slots; cf[c] is where the next c goes. */
  ghost predicate Placing(cf: seq<int>, col: seq<byte>, i: int) {
    |cf| == 257 && 0 <= i <= |col| && forall c :: 0 <= c < 256 ==> cf[c] == Smaller(col, c) + Occ(col, c, i)
  }

  lemma PlaceOne(cf: seq<int>, col: seq<byte>, i: int)
    requires Placing(cf, col, i) && i < |col|
    ensures cf[col[i]] == Slot(col, i) < |col| && Placing(cf[col[i] := cf[col[i]] + 1], col, i + 1)
  {
    SlotRange(col, i, 256);
  }

  /** q undoes the stable sort of the column; TInverse(col) is the only such q. */
  ghost predicate Undoes(q: seq<int>, col: seq<byte>) {
    |q| == |col| && IsPerm(q) && forall i {:trigger Slot(col, i)} :: 0 <= i < |col| ==> 0 <= Slot(col, i) < |col| && q[Slot(col, i)] == i
  }

  /** The packed table while entries below i have been linked. */
  ghost predicate Packing(tt: seq<int>, col: seq<byte>, q: seq<int>, i: int) {
    && |q| == |col| <= |tt| && 0 <= i <= |col|
    && forall j :: 0 <= j < |col| ==> tt[j] == col[j] as int + 256 * (if q[j] < i then q[j] else 0)
  }

  lemma PackOne(tt: seq<int>, col: seq<byte>, q: seq<int>, i: int, x: int)
    requires IsPerm(q) && Packing(tt, col, q, i) && i < |col| && 0 <= x < |col| && q[x] == i
    ensures tt[i] % 256 == col[i]
    ensures Packing(tt[x := tt[x] + 256 * i], col, q, i + 1)
  {
    forall j | 0 <= j < |col| && j != x
      ensures q[j] != i
    {
    }
  }

  method PackEntry(tt: array<int>, cftab: array<int>, ghost col: seq<byte>, ghost q: seq<int>, i: nat)
    requires tt != cftab && i < |col| && Undoes(q, col) && Packing(tt[..], col, q, i) && Placing(cftab[..], col, i)
    modifies tt, cftab
    ensures Packing(tt[..], col, q, i + 1) && Placing(cftab[..], col, i + 1)
  {
    ghost var a, c := tt[..], cftab[..];
    PlaceOne(c, col, i);
    PackOne(a, col, q, i, Slot(col, i));
    var uc := tt[i] % 256;
    var x := cftab[uc];
    tt[x] := tt[x] + 256 * i;
    cftab[uc] := x + 1;
    assert tt[..] == a[x := a[x] + 256 * i] && cftab[..] == c[uc := x + 1];
  }

  method PackAll(tt: array<int>, cftab: array<int>, ghost col: seq<byte>, ghost q: seq<int>, n: nat)
    requires tt != cftab && n == |col| && Undoes(q, col) && Packing(tt[..], col, q, 0) && Placing(cftab[..], col, 0)
    modifies tt, cftab
    ensures Packing(tt[..], col, q, n)
  {
    for i := 0 to n
      invariant Packing(tt[..], col, q, i) && Placing(cftab[..], col, i)
    {
      PackEntry(tt, cftab, col, q, i);
    }
  }

  /** T^(-1) packed above the column's own bytes. */
  method BuildFast(tt: array<int>, cftab: array<int>, ghost col: seq<byte>, ghost q: seq<int>, n: nat)
    requires tt != cftab && n == |col| <= tt.Length && Undoes(q, col) && Cumulative(cftab[..], col)
    requires forall j :: 0 <= j < n ==> tt[j] == col[j]
    modifies tt, cftab
    ensures forall j :: 0 <= j < n ==> tt[j] == col[j] as int + 256 * q[j]
  {
    PackAll(tt, cftab, col, q, n);
  }
}
