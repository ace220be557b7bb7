/**
 * generateMTFValues. The array holds 16-bit halves: two of them make one sorted pointer,
 * one of them holds one symbol, and symbols are written over pointers already read.
 */
module MtfEncoder {
  import opened Alphabet
  import opened Bits
  import opened BurrowsWheeler
  import opened Counting
  import opened Mtf
  import opened Permutations
  import opened Rotations

  const HALF: int := 65536

  /** The pointer stored in halves 2k and 2k + 1. */
  function Ptr(a: seq<int>, k: int): int
    requires 0 <= k && 2 * k + 1 < |a|
  {
    a[2 * k] + HALF * a[2 * k + 1]
  }

  /** The list of bytes that a list of ranks stands for. */
  function Bytes(used: seq<byte>, ranks: seq<int>): (l: seq<byte>)
    requires forall i :: 0 <= i < |ranks| ==> 0 <= ranks[i] < |used|
    ensures |l| == |ranks|
  {
    seq(|ranks|, i requires 0 <= i < |ranks| => used[ranks[i]])
  }

  ghost predicate Counted(freq: seq<int>, syms: seq<int>) {
    forall v :: 0 <= v < |freq| ==> freq[v] == Occ(syms, v, |syms|)
  }

  lemma CountOne(freq: seq<int>, syms: seq<int>, sym: int)
    requires Counted(freq, syms) && 0 <= sym < |freq|
    ensures Counted(freq[sym := freq[sym] + 1], syms + [sym])
  {
    forall v | 0 <= v < |freq|
      ensures Occ(syms + [sym], v, |syms| + 1) == Occ(syms, v, |syms|) + if v == sym then 1 else 0
    {
      OccSlice(syms + [sym], v, |syms|);
      assert (syms + [sym])[..|syms|] == syms;
    }
  }

  /** mtfv[wr] := sym; mtfFreq[sym]++. */
  method Put(arr1: array<int>, freq: array<int>, wr: nat, sym: int)
    requires arr1 != freq && wr < arr1.Length && 0 <= sym < freq.Length && Counted(freq[..], arr1[..wr])
    modifies arr1, freq
    ensures arr1[..wr + 1] == old(arr1[..wr]) + [sym] && Counted(freq[..], arr1[..wr + 1])
    ensures forall x :: wr < x < arr1.Length ==> arr1[x] == old(arr1[x])
  {
    CountOne(freq[..], arr1[..wr], sym);
    arr1[wr] := sym;
    freq[sym] := freq[sym] + 1;
  }

  lemma RunCodeNext(done: seq<int>, before: seq<int>, z: nat, p: nat)
    requires before + RunCode(p + 1) == done + RunCode(z)
    ensures (before + [p % 2]) + RunCode(p / 2) == done + RunCode(z)
  {
    Regrouped(before, [p % 2], RunCode(p / 2));
  }

  lemma RunCodeDone(before: seq<int>, done: seq<int>, z: nat, p: nat)
    requires p < 2 && before + RunCode(p / 2) == done + RunCode(z)
    ensures before == done + RunCode(z)
  {
    assert before + [] == before;
  }

  /** Writes out a pending run, which takes at most as many symbols as the run is long. */
  method PutRun(arr1: array<int>, freq: array<int>, wr0: nat, z: nat) returns (wr: nat)
    requires arr1 != freq && wr0 + z <= arr1.Length && freq.Length >= 2 && Counted(freq[..], arr1[..wr0])
    modifies arr1, freq
    ensures wr0 <= wr <= wr0 + z
    ensures arr1[..wr] == old(arr1[..wr0]) + RunCode(z) && Counted(freq[..], arr1[..wr])
    ensures forall x :: wr0 + z <= x < arr1.Length ==> arr1[x] == old(arr1[x])
  {
    wr := wr0;
    ghost var done := arr1[..wr0];
    if z == 0 {
      assert done + RunCode(z) == done;
      return;
    }
    var zPend := z - 1;
    while true
      invariant wr0 <= wr && wr + zPend + 1 <= wr0 + z && 0 <= zPend
      invariant arr1[..wr] + RunCode(zPend + 1) == done + RunCode(z) && Counted(freq[..], arr1[..wr])
      invariant forall x :: wr0 + z <= x < arr1.Length ==> arr1[x] == old(arr1[x])
      decreases zPend
    {
      RunCodeNext(done, arr1[..wr], z, zPend);
      Put(arr1, freq, wr, zPend % 2);
      wr := wr + 1;
      if zPend < 2 {
        RunCodeDone(arr1[..wr], done, z, zPend);
        break;
      }
      zPend := (zPend - 2) / 2;
    }
  }

  /** The rotation loop: finds ll beyond the front and moves it there. */
  method Rotate(yy: array<int>, n: nat, ll: int) returns (j: nat)
    requires n <= yy.Length && ll in yy[..n] && yy[0] != ll
    modifies yy
    ensures 1 <= j < n && old(yy[j]) == ll && yy[..n] == MoveToFront(old(yy[..n]), j)
    ensures forall k :: 0 <= k < j ==> old(yy[k]) != ll
  {
    ghost var old_ := yy[..n];
    ghost var at := IndexOf(old_, ll);
    var rtmp := yy[1];
    yy[1] := yy[0];
    j := 1;
    while rtmp != ll
      invariant 1 <= j <= at < n && rtmp == old_[j] && yy[0] == old_[0]
      invariant forall k :: 0 <= k < j ==> old_[k] != ll
      invariant forall k :: 1 <= k <= j ==> yy[k] == old_[k - 1]
      invariant forall k :: j < k < n ==> yy[k] == old_[k]
      decreases n - j
    {
      j := j + 1;
      var rtmp2 := rtmp;
      rtmp := yy[j];
      yy[j] := rtmp2;
    }
    yy[0] := rtmp;
  }

  function Ptrs(a: seq<int>, n: nat): (p: seq<int>)
    requires 2 * n <= |a|
    ensures |p| == n
  {
    seq(n, k requires 0 <= k < n => Ptr(a, k))
  }

  /** A list of ranks that is a rearrangement of all ranks. */
  ghost predicate Ranks(used: seq<byte>, ranks: seq<int>) {
    && used != [] && |ranks| == |used| && IsPerm(ranks)
  }

  /**
   * i pointers read: they have become wr symbols and z pending front hits, the symbols written
   * so far complete to those of the whole column, and the pointers still to be read are intact.
   */
  ghost predicate Coding(a0: seq<int>, col: seq<byte>, used: seq<byte>, a: seq<int>, freq: seq<int>, yy: seq<int>, i: int, wr: int, z: int) {
    && 0 <= wr && 0 <= z && wr + z <= i <= |col| && |a| == |a0| >= 2 * |col| && Ranks(used, yy)
    && (forall x :: 2 * i <= x < |a| ==> a[x] == a0[x])
    && (forall x :: x in col ==> x in used)
    && (forall x :: x in col[i..] ==> x in Bytes(used, yy))
    && a[..wr] + Symbols(Bytes(used, yy), col[i..], z) == Symbols(used, col, 0)
    && Counted(freq, a[..wr])
  }

  lemma FrontHit(a0: seq<int>, col: seq<byte>, used: seq<byte>, a: seq<int>, freq: seq<int>, yy: seq<int>, i: int, wr: int, z: int)
    requires Coding(a0, col, used, a, freq, yy, i, wr, z) && i < |col| && col[i] == used[yy[0]]
    ensures Coding(a0, col, used, a, freq, yy, i + 1, wr, z + 1)
  {
    assert col[i..][0] == col[i] && col[i..][1..] == col[i + 1..];
    assert forall x :: x in col[i + 1..] ==> x in col[i..];
  }

  lemma Moved(used: seq<byte>, ranks: seq<int>, j: int)
    requires Ranks(used, ranks) && 0 <= j < |ranks|
    ensures Injective(used) ==> Injective(Bytes(used, ranks))
    ensures Ranks(used, MoveToFront(ranks, j)) && Bytes(used, MoveToFront(ranks, j)) == MoveToFront(Bytes(used, ranks), j)
  {
    var r := MoveToFront(ranks, j);
    forall x, y | 0 <= x < y < |r|
      ensures r[x] != r[y]
    {
    }
  }

  lemma FirstIndex(l: seq<int>, j: int)
    requires 0 <= j < |l| && forall k :: 0 <= k < j ==> l[k] != l[j]
    ensures IndexOf(l, l[j]) == j
    decreases |l|
  {
    if j > 0 {
      assert l[0] != l[j];
      FirstIndex(l[1..], j - 1);
    }
  }

  lemma OtherHit(a0: seq<int>, col: seq<byte>, used: seq<byte>, a: seq<int>, b: seq<int>, freq: seq<int>, freq': seq<int>,
                 yy: seq<int>, i: int, wr: int, z: int, wr': int, j: int)
    requires Coding(a0, col, used, a, freq, yy, i, wr, z) && i < |col| && 1 <= j < |yy| && Injective(used)
    requires col[i] == used[yy[j]] && |b| == |a| && 0 <= wr' <= i + 1 && b[..wr'] == a[..wr] + RunCode(z) + [j + 1]
    requires forall x :: 2 * (i + 1) <= x < |a| ==> b[x] == a0[x]
    requires Counted(freq', b[..wr'])
    ensures Coding(a0, col, used, b, freq', MoveToFront(yy, j), i + 1, wr', 0)
  {
    var l := Bytes(used, yy);
    Moved(used, yy, j);
    assert col[i..][0] == col[i] && col[i..][1..] == col[i + 1..];
    SymbolsOther(l, col[i..], z, j);
    CodedSoFar(a[..wr], RunCode(z), [j + 1], Symbols(MoveToFront(l, j), col[i + 1..], 0));
  }

  lemma CodedSoFar(a: seq<int>, b: seq<int>, c: seq<int>, d: seq<int>)
    ensures a + (b + c + d) == a + b + c + d
  {
  }

  lemma SymbolsAt(l: seq<byte>, s: seq<byte>, z: nat, j: int)
    requires l != [] && s != [] && s[0] != l[0] && (forall x :: x in s ==> x in l) && 0 <= j < |l| && j == IndexOf(l, s[0])
    requires forall x :: x in s[1..] ==> x in MoveToFront(l, j)
    ensures Symbols(l, s, z) == RunCode(z) + [j + 1] + Symbols(MoveToFront(l, j), s[1..], 0)
  {
  }

  lemma StillIn(l: seq<byte>, s: seq<byte>, j: int)
    requires 0 <= j < |l| && s != [] && forall x :: x in s ==> x in l
    ensures forall x :: x in s[1..] ==> x in MoveToFront(l, j)
  {
    KeepsElements(l, j);
    Tail(s, l);
  }

  lemma SymbolsOther(l: seq<byte>, s: seq<byte>, z: nat, j: int)
    requires 1 <= j < |l| && Injective(l) && s != [] && s[0] == l[j] && forall x :: x in s ==> x in l
    ensures forall x :: x in s[1..] ==> x in MoveToFront(l, j)
    ensures Symbols(l, s, z) == RunCode(z) + [j + 1] + Symbols(MoveToFront(l, j), s[1..], 0)
  {
    FirstIndex(l, j);
    StillIn(l, s, j);
    SymbolsAt(l, s, z, j);
  }

  lemma UsedInjective(inUse: usage)
    ensures Injective(Used(inUse, 256))
  {
    var u := Used(inUse, 256);
    forall i, j | 0 <= i < j < |u|
      ensures u[i] != u[j]
    {
      UsedExactly(inUse, 256, i);
      UsedExactly(inUse, 256, j);
    }
  }

  /** One non-front byte: the pending run and then its position. */
  method PutOther(arr1: array<int>, freq: array<int>, yy: array<int>, i: nat, wr0: nat, z: nat, ll: int,
                  ghost a0: seq<int>, ghost col: seq<byte>, ghost used: seq<byte>) returns (wr: nat)
    requires arr1 != freq && arr1 != yy && freq != yy && freq.Length == |used| + 2 && |used| <= yy.Length && Injective(used)
    requires Coding(a0, col, used, arr1[..], freq[..], yy[..|used|], i, wr0, z)
    requires i < |col| && 0 <= ll < |used| && col[i] == used[ll] && yy[0] != ll
    modifies arr1, freq, yy
    ensures Coding(a0, col, used, arr1[..], freq[..], yy[..|used|], i + 1, wr, 0)
  {
    ghost var a, f, y := arr1[..], freq[..], yy[..|used|];
    PermOnto(y, ll);
    wr := PutRun(arr1, freq, wr0, z);
    var j := Rotate(yy, freq.Length - 2, ll);
    ghost var mid := arr1[..wr];
    Put(arr1, freq, wr, j + 1);
    wr := wr + 1;
    OtherHit(a0, col, used, a, arr1[..], f, freq[..], y, i, wr0, z, wr, j);
  }

  lemma ColumnInUse(b: seq<byte>, p: seq<int>, used: seq<byte>)
    requires |p| == |b| && (forall i :: 0 <= i < |p| ==> 0 <= p[i] < |b|) && forall x :: x in b ==> x in used
    ensures forall x :: x in LastColumn(b, p) ==> x in used
  {
    forall x | x in LastColumn(b, p)
      ensures x in used
    {
      var i :| 0 <= i < |b| && LastColumn(b, p)[i] == x;
      assert b[Prev(|b|, p[i])] in b;
    }
  }

  /** The scan over all pointers. */
  method Scan(arr1: array<int>, freq: array<int>, yy: array<int>, block: array<byte>, n: nat, unseqToSeq: array<int>,
              ghost p: seq<int>, ghost used: seq<byte>) returns (wr: nat, z: nat)
    requires arr1 != freq && arr1 != yy && freq != yy && unseqToSeq != arr1 && unseqToSeq != freq && unseqToSeq != yy
    requires freq.Length == |used| + 2 && |used| <= yy.Length && Injective(used) && 1 <= n <= block.Length && unseqToSeq.Length == 256
    requires |p| == n && (forall i :: 0 <= i < n ==> 0 <= p[i] < n) && 2 * n <= arr1.Length && p == Ptrs(arr1[..], n)
    requires forall x :: x in block[..n] ==> 0 <= unseqToSeq[x] < |used| && used[unseqToSeq[x]] == x
    requires Coding(arr1[..], LastColumn(block[..n], p), used, arr1[..], freq[..], yy[..|used|], 0, 0, 0)
    modifies arr1, freq, yy
    ensures Coding(old(arr1[..]), LastColumn(block[..n], p), used, arr1[..], freq[..], yy[..|used|], n, wr, z)
  {
    ghost var a0, col := arr1[..], LastColumn(block[..n], p);
    wr, z := 0, 0;
    for i := 0 to n
      invariant Coding(a0, col, used, arr1[..], freq[..], yy[..|used|], i, wr, z)
    {
      wr, z := ScanOne(arr1, freq, yy, block, n, unseqToSeq, i, wr, z, a0, p, used);
    }
  }

  method ScanOne(arr1: array<int>, freq: array<int>, yy: array<int>, block: array<byte>, n: nat, unseqToSeq: array<int>, i: nat, wr0: nat, z0: nat,
                 ghost a0: seq<int>, ghost p: seq<int>, ghost used: seq<byte>) returns (wr: nat, z: nat)
    requires arr1 != freq && arr1 != yy && freq != yy && unseqToSeq != arr1 && unseqToSeq != freq && unseqToSeq != yy
    requires freq.Length == |used| + 2 && |used| <= yy.Length && Injective(used) && i < n <= block.Length && unseqToSeq.Length == 256
    requires |p| == n && (forall i :: 0 <= i < n ==> 0 <= p[i] < n) && 2 * n <= |a0| && p == Ptrs(a0, n)
    requires forall x :: x in block[..n] ==> 0 <= unseqToSeq[x] < |used| && used[unseqToSeq[x]] == x
    requires Coding(a0, LastColumn(block[..n], p), used, arr1[..], freq[..], yy[..|used|], i, wr0, z0)
    modifies arr1, freq, yy
    ensures Coding(a0, LastColumn(block[..n], p), used, arr1[..], freq[..], yy[..|used|], i + 1, wr, z)
  {
    ghost var b, col := block[..n], LastColumn(block[..n], p);
    var j := arr1[2 * i] + HALF * arr1[2 * i + 1] - 1;
    assert j + 1 == Ptr(a0, i) == p[i];
    if j < 0 { j := j + n; }
    assert block[j] == b[j] == col[i];
    assert b[j] in b;
    var ll := unseqToSeq[block[j]];
    wr := wr0;
    if yy[0] == ll {
      z := z0 + 1;
      FrontHit(a0, col, used, arr1[..], freq[..], yy[..|used|], i, wr0, z0);
    } else {
      wr := PutOther(arr1, freq, yy, i, wr0, z0, ll, a0, col, used);
      z := 0;
    }
  }

  /** The last run and the end marker. */
  method PutEnd(arr1: array<int>, freq: array<int>, wr0: nat, z: nat, ghost a0: seq<int>, ghost col: seq<byte>, ghost used: seq<byte>, ghost yy: seq<int>)
    returns (nMTF: nat)
    requires arr1 != freq && freq.Length == |used| + 2 && |col| >= 1
    requires Coding(a0, col, used, arr1[..], freq[..], yy, |col|, wr0, z)
    modifies arr1, freq
    ensures nMTF <= |col| + 1 <= arr1.Length && arr1[..nMTF] == Symbols(used, col, 0) && Counted(freq[..], arr1[..nMTF])
  {
    ghost var done := arr1[..wr0];
    var wr := PutRun(arr1, freq, wr0, z);
    Put(arr1, freq, wr, freq.Length - 1);
    nMTF := wr + 1;
    assert col[|col|..] == [];
    assert done + (RunCode(z) + [|used| + 1]) == done + RunCode(z) + [|used| + 1];
  }

  /** generateMTFValues: nMTF symbols of the last column, written over the pointers in the same memory. */
  method Generate(arr1: array<int>, block: array<byte>, n: nat, inUse: usage) returns (nMTF: nat, mtfFreq: array<int>)
    requires 1 <= n <= block.Length && 2 * n <= arr1.Length
    requires forall k :: 0 <= k < n ==> 0 <= Ptrs(arr1[..], n)[k] < n
    requires forall x :: x in block[..n] ==> inUse[x]
    modifies arr1
    ensures fresh(mtfFreq) && mtfFreq.Length == |Used(inUse, 256)| + 2
    ensures forall x :: x in old(LastColumn(block[..n], Ptrs(arr1[..], n))) ==> x in Used(inUse, 256)
    ensures Used(inUse, 256) != [] && 1 <= nMTF <= n + 1 && nMTF <= arr1.Length
    ensures arr1[..nMTF] == Symbols(Used(inUse, 256), old(LastColumn(block[..n], Ptrs(arr1[..], n))), 0)
    ensures Counted(mtfFreq[..], arr1[..nMTF])
  {
    ghost var used, p := Used(inUse, 256), Ptrs(arr1[..], n);
    ghost var b, a0 := block[..n], arr1[..];
    UsedInjective(inUse);
    var unseqToSeq, nInUse := MakeMapsE(inUse);
    forall x | x in b
      ensures x in used && 0 <= unseqToSeq[x] < nInUse && used[unseqToSeq[x]] == x
    {
    }
    assert b[0] in b;
    ColumnInUse(b, p, used);
    ghost var col := LastColumn(b, p);
    mtfFreq := new int[nInUse + 2](_ => 0);
    var yy := new int[256](i => i);
    assert yy[..nInUse] == seq(nInUse, i => i);
    StartCoding(a0, col, used, mtfFreq[..], yy[..nInUse]);
    var wr, z := Scan(arr1, mtfFreq, yy, block, n, unseqToSeq, p, used);
    SymbolsShape(used, col, 0);
    nMTF := PutEnd(arr1, mtfFreq, wr, z, a0, col, used, yy[..nInUse]);
  }

  lemma StartCoding(a: seq<int>, col: seq<byte>, used: seq<byte>, freq: seq<int>, yy: seq<int>)
    requires used != [] && yy == seq(|used|, i => i) && 2 * |col| <= |a| && (forall x :: x in col ==> x in used)
    requires forall v :: 0 <= v < |freq| ==> freq[v] == 0
    ensures Coding(a, col, used, a, freq, yy, 0, 0, 0)
  {
    assert Bytes(used, yy) == used;
    assert col[0..] == col;
    assert a[..0] == [];
    assert [] + Symbols(used, col, 0) == Symbols(used, col, 0);
  }
}
