/**
 * The tree that BZ2_hbMakeCodeLengths grows. Nodes run from 1; nodes 1..a are the symbols.
 * A weight holds a frequency in its upper bits and the height of the subtree in its low byte.
 */
module HuffmanTree {
  import opened Bits
  import Canonical

  const MAX_SYMBOLS: nat := Canonical.MAX_ALPHA_SIZE
  const MAX_NODES: nat := 516
  /** Bound on the sum of all frequencies: shifted by the eight bits of a height, it just fits 32 bits with a sign. */
  const MAX_TOTAL: nat := 0x7f_ffff

  /** WEIGHTOF and DEPTHOF. */
  function Freq(w: seq<int>, x: int): int
    requires 0 <= x < |w|
  {
    w[x] / 256
  }

  function Height(w: seq<int>, x: int): int
    requires 0 <= x < |w|
  {
    w[x] % 256
  }

  /** ADDWEIGHTS; the bitwise or is a sum because the height stays below 256 (see HeightBound). */
  function AddWeights(a: int, b: int): int {
    (a - a % 256) + (b - b % 256) + (1 + if a % 256 > b % 256 then a % 256 else b % 256)
  }

  function Fib(n: nat): nat {
    if n == 0 then 1 else if n == 1 then 2 else Fib(n - 1) + Fib(n - 2)
  }

  lemma {:induction false} FibMono(m: nat, n: nat)
    requires m <= n
    ensures Fib(m) <= Fib(n)
    decreases n
  {
    if m < n {
      FibMono(m, n - 1);
    }
  }

  lemma FibValues()
    ensures Fib(18) == 6765 && Fib(33) == 9227465
  {
    assert Fib(8) == 55 && Fib(9) == 89;
    assert Fib(17) == 4181 && Fib(18) == 6765;
    assert Fib(27) == 514229 && Fib(28) == 832040;
    assert Fib(31) == 3524578 && Fib(32) == 5702887;
  }

  /** Parents come after their children, and every inner node has exactly two. */
  ghost predicate Links(p: seq<int>, a: int, n: int, l: map<int, int>, r: map<int, int>) {
    && 1 <= a <= n < |p|
    && (forall x :: 1 <= x <= n ==> p[x] == -1 || (x < p[x] <= n && a < p[x]))
    && (forall y :: a < y <= n ==> y in l && y in r && 1 <= l[y] < y && 1 <= r[y] < y && l[y] != r[y])
    && (forall y, x :: a < y <= n && 1 <= x <= n ==> (p[x] == y <==> x == l[y] || x == r[y]))
  }

  ghost predicate Heights(w: seq<int>, p: seq<int>, a: int, n: int) {
    && 1 <= a <= n < |p| == |w|
    && (forall x :: 1 <= x <= a ==> Height(w, x) == 0 && Freq(w, x) >= 1)
    && (forall x :: 1 <= x <= n && 0 <= p[x] < |w| ==> Height(w, x) < Height(w, p[x]))
  }

  /** m holds the roots, once each. */
  ghost predicate Roots(p: seq<int>, n: int, m: multiset<int>) {
    && 0 <= n < |p|
    && (forall x :: x in m ==> 1 <= x <= n)
    && (forall x :: 1 <= x <= n ==> m[x] == if p[x] == -1 then 1 else 0)
  }

  /** A subtree of height h weighs at least Fib(h), and the last merge already weighed Fib(h - 1). */
  ghost predicate Heavy(w: seq<int>, m: multiset<int>, last: int) {
    forall x :: x in m ==> 0 <= x < |w| && 1 <= Freq(w, x) && last <= Freq(w, x) && Fib(Height(w, x)) <= Freq(w, x)
                           && (Height(w, x) >= 1 ==> Fib(Height(w, x) - 1) <= last)
  }

  function RootSum(w: seq<int>, p: seq<int>, k: nat): int
    requires k < |w| == |p|
  {
    if k == 0 then 0 else RootSum(w, p, k - 1) + if p[k] == -1 then Freq(w, k) else 0
  }

  function LeafSum(w: seq<int>, k: nat): int
    requires k < |w|
  {
    if k == 0 then 0 else LeafSum(w, k - 1) + Freq(w, k)
  }

  lemma JoinLinks(p: seq<int>, q: seq<int>, a: int, n: int, l: map<int, int>, r: map<int, int>, x1: int, x2: int)
    requires Links(p, a, n, l, r) && n + 1 < |p| == |q| && 1 <= x1 <= n && 1 <= x2 <= n && x1 != x2
    requires p[x1] == p[x2] == -1 && q[x1] == q[x2] == n + 1 && q[n + 1] == -1
    requires forall x :: 1 <= x <= n && x != x1 && x != x2 ==> q[x] == p[x]
    ensures Links(q, a, n + 1, l[n + 1 := x1], r[n + 1 := x2])
  {
  }

  lemma JoinHeights(w: seq<int>, v: seq<int>, p: seq<int>, q: seq<int>, a: int, n: int, x1: int, x2: int)
    requires Heights(w, p, a, n) && n + 1 < |p| == |q| == |v| && 1 <= x1 <= n && 1 <= x2 <= n
    requires q[x1] == q[x2] == n + 1 && q[n + 1] == -1
    requires forall x :: 1 <= x <= n && x != x1 && x != x2 ==> q[x] == p[x] && p[x] <= n
    requires forall x :: 0 <= x <= n ==> v[x] == w[x]
    requires Height(v, n + 1) > Height(w, x1) && Height(v, n + 1) > Height(w, x2)
    ensures Heights(v, q, a, n + 1)
  {
    forall x | 1 <= x <= n
      ensures Height(v, x) == Height(w, x) && Freq(v, x) == Freq(w, x)
    {
    }
  }

  lemma JoinRoots(p: seq<int>, q: seq<int>, n: int, m: multiset<int>, k: multiset<int>, x1: int, x2: int)
    requires Roots(p, n, m) && n + 1 < |p| == |q| && m == k + multiset{x1, x2} && x1 != x2
    requires 1 <= x1 <= n && 1 <= x2 <= n && q[x1] == q[x2] == n + 1 && q[n + 1] == -1
    requires forall x :: 1 <= x <= n && x != x1 && x != x2 ==> q[x] == p[x]
    ensures Roots(q, n + 1, k + multiset{n + 1})
  {
    assert n + 1 !in m;
    assert forall x :: x in k ==> x in m;
    assert p[x1] == -1 && p[x2] == -1 by { assert m[x1] >= 1 && m[x2] >= 1; }
  }

  lemma JoinHeavy(w: seq<int>, v: seq<int>, m: multiset<int>, k: multiset<int>, last: int, x1: int, x2: int, y: int)
    requires Heavy(w, m, last) && m == k + multiset{x1, x2} && |v| == |w| && 0 <= y < |v|
    requires y !in m && forall x :: x in m ==> v[x] == w[x]
    requires 0 <= x1 < |w| && 0 <= x2 < |w| && w[x1] <= w[x2]
    requires forall x :: x in k ==> 0 <= x < |w| && w[x2] <= w[x]
    requires Freq(v, y) == Freq(w, x1) + Freq(w, x2)
    requires Height(v, y) == 1 + if Height(w, x1) > Height(w, x2) then Height(w, x1) else Height(w, x2)
    ensures Heavy(v, k + multiset{y}, Freq(w, x2))
  {
    assert x1 in m && x2 in m;
    HeavierPair(Height(w, x1), Height(w, x2), Freq(w, x1), Freq(w, x2), last);
    forall x | x in k + multiset{y}
      ensures 0 <= x < |v| && 1 <= Freq(v, x) && Freq(w, x2) <= Freq(v, x) && Fib(Height(v, x)) <= Freq(v, x)
              && (Height(v, x) >= 1 ==> Fib(Height(v, x) - 1) <= Freq(w, x2))
    {
      if x in k {
        assert x in m;
      }
    }
  }

  /** Merging the two lightest subtrees keeps the Fibonacci bound. */
  lemma HeavierPair(d1: nat, d2: nat, f1: int, f2: int, last: int)
    requires 1 <= f1 <= f2 && last <= f1 && Fib(d1) <= f1 && Fib(d2) <= f2
    requires (d1 >= 1 ==> Fib(d1 - 1) <= last) && (d2 >= 1 ==> Fib(d2 - 1) <= last)
    ensures var d := if d1 > d2 then d1 else d2;
            Fib(d) <= f2 && Fib(d + 1) <= f1 + f2
  {
  }

  lemma {:induction false} RootSumSame(w: seq<int>, v: seq<int>, p: seq<int>, q: seq<int>, k: nat, x1: int, x2: int)
    requires k < |w| == |p| == |v| == |q| && 1 <= x1 && 1 <= x2 && x1 != x2
    requires forall x :: 1 <= x <= k ==> v[x] == w[x]
    requires forall x :: 1 <= x <= k && x != x1 && x != x2 ==> q[x] == p[x]
    requires forall x :: 1 <= x <= k && (x == x1 || x == x2) ==> p[x] == -1 && q[x] != -1
    ensures RootSum(v, q, k) == RootSum(w, p, k) - (if x1 <= k then Freq(w, x1) else 0) - (if x2 <= k then Freq(w, x2) else 0)
    decreases k
  {
    if k > 0 {
      RootSumSame(w, v, p, q, k - 1, x1, x2);
    }
  }

  lemma {:induction false} RootSumAtLeast(w: seq<int>, p: seq<int>, k: nat, x: int)
    requires k < |w| == |p| && 1 <= x <= k && p[x] == -1
    requires forall y :: 1 <= y <= k && p[y] == -1 ==> Freq(w, y) >= 0
    ensures Freq(w, x) <= RootSum(w, p, k)
    decreases k
  {
    if x < k {
      RootSumAtLeast(w, p, k - 1, x);
    } else {
      RootSumNat(w, p, k - 1);
    }
  }

  lemma {:induction false} RootSumPair(w: seq<int>, p: seq<int>, k: nat, x: int, y: int)
    requires k < |w| == |p| && 1 <= x < y <= k && p[x] == -1 && p[y] == -1
    requires forall z :: 1 <= z <= k && p[z] == -1 ==> Freq(w, z) >= 0
    ensures Freq(w, x) + Freq(w, y) <= RootSum(w, p, k)
    decreases k
  {
    if y < k {
      RootSumPair(w, p, k - 1, x, y);
    } else {
      RootSumAtLeast(w, p, k - 1, x);
    }
  }

  lemma {:induction false} RootSumNat(w: seq<int>, p: seq<int>, k: nat)
    requires k < |w| == |p|
    requires forall y :: 1 <= y <= k && p[y] == -1 ==> Freq(w, y) >= 0
    ensures 0 <= RootSum(w, p, k)
    decreases k
  {
    if k > 0 {
      RootSumNat(w, p, k - 1);
    }
  }

  /** Heights stay far below 256, so they never carry into the frequency. */
  lemma HeightBound(w: seq<int>, p: seq<int>, n: int, m: multiset<int>, last: int, x: int)
    requires Roots(p, n, m) && |w| == |p| && Heavy(w, m, last) && RootSum(w, p, n) <= MAX_TOTAL && x in m
    ensures Height(w, x) < 33 && Freq(w, x) <= MAX_TOTAL
  {
    forall y | 1 <= y <= n && p[y] == -1
      ensures Freq(w, y) >= 0
    {
      assert y in m;
    }
    assert p[x] == -1;
    RootSumAtLeast(w, p, n, x);
    if Height(w, x) >= 33 {
      FibMono(33, Height(w, x));
      FibValues();
    }
  }

  /** Nor do the frequencies of two roots together exceed the bound. */
  lemma PairBound(w: seq<int>, p: seq<int>, n: int, m: multiset<int>, last: int, x: int, y: int)
    requires Roots(p, n, m) && |w| == |p| && Heavy(w, m, last) && RootSum(w, p, n) <= MAX_TOTAL && x in m && y in m && x != y
    ensures Freq(w, x) + Freq(w, y) <= MAX_TOTAL
  {
    forall z | 1 <= z <= n && p[z] == -1
      ensures Freq(w, z) >= 0
    {
      assert z in m;
    }
    assert p[x] == -1 && p[y] == -1;
    if x < y { RootSumPair(w, p, n, x, y); } else { RootSumPair(w, p, n, y, x); }
  }

  /** Steps from node k up to its root. */
  function Depth(p: seq<int>, k: int): nat
    requires 0 <= k < |p|
    decreases |p| - k
  {
    if k < p[k] < |p| then 1 + Depth(p, p[k]) else 0
  }

  /** The height of the one root bounds every depth. */
  lemma {:induction false} DepthBelowHeight(w: seq<int>, p: seq<int>, a: int, n: int, l: map<int, int>, r: map<int, int>, k: int)
    requires Links(p, a, n, l, r) && Heights(w, p, a, n) && 1 <= k <= n
    requires forall x :: 1 <= x < n ==> p[x] != -1
    ensures Depth(p, k) + Height(w, k) <= Height(w, n)
    decreases n - k
  {
    if p[k] != -1 {
      DepthBelowHeight(w, p, a, n, l, r, p[k]);
    }
  }

  /** If all symbols are within depth b, so are all nodes. */
  lemma {:induction false} InnerDepth(p: seq<int>, a: int, n: int, l: map<int, int>, r: map<int, int>, b: nat, k: int)
    requires Links(p, a, n, l, r) && 1 <= k <= n && forall x :: 1 <= x <= a ==> Depth(p, x) <= b
    ensures Depth(p, k) <= b
    decreases k
  {
    if k > a {
      assert p[l[k]] == k;
      InnerDepth(p, a, n, l, r, b, l[k]);
    }
  }

  /** A node's share of the code space, out of 2^b. */
  function Share(p: seq<int>, b: nat, x: int): nat
    requires 0 <= x < |p|
  {
    if Depth(p, x) <= b then ShiftLeft(1, b - Depth(p, x)) else 0
  }

  /** Shares of the nodes 1..k that have no parent among 1..m. */
  function Frontier(p: seq<int>, b: nat, m: int, k: nat): nat
    requires k < |p|
  {
    if k == 0 then 0 else Frontier(p, b, m, k - 1) + if p[k] < 0 || p[k] > m then Share(p, b, k) else 0
  }

  lemma {:induction false} FrontierChildren(p: seq<int>, a: int, n: int, l: map<int, int>, r: map<int, int>, b: nat, m: int, k: nat)
    requires Links(p, a, n, l, r) && a < m <= n && k <= n
    ensures Frontier(p, b, m - 1, k) == Frontier(p, b, m, k)
             + (if l[m] <= k then Share(p, b, l[m]) else 0) + (if r[m] <= k then Share(p, b, r[m]) else 0)
    decreases k
  {
    if k > 0 {
      FrontierChildren(p, a, n, l, r, b, m, k - 1);
      assert p[k] == m <==> k == l[m] || k == r[m];
    }
  }

  /** Two children share their parent's part of the code space. */
  lemma ChildShares(p: seq<int>, a: int, n: int, l: map<int, int>, r: map<int, int>, b: nat, m: int)
    requires Links(p, a, n, l, r) && a < m <= n && forall x :: 1 <= x <= a ==> Depth(p, x) <= b
    ensures Share(p, b, l[m]) + Share(p, b, r[m]) == Share(p, b, m)
  {
    assert p[l[m]] == m && p[r[m]] == m;
    InnerDepth(p, a, n, l, r, b, l[m]);
    ShiftLeftStep(1, b - Depth(p, l[m]));
  }

  lemma {:induction false} FrontierConstant(p: seq<int>, a: int, n: int, l: map<int, int>, r: map<int, int>, b: nat, m: int)
    requires Links(p, a, n, l, r) && a <= m <= n && forall x :: 1 <= x <= a ==> Depth(p, x) <= b
    ensures Frontier(p, b, m, m) == Frontier(p, b, a, a)
    decreases m
  {
    if m > a {
      FrontierConstant(p, a, n, l, r, b, m - 1);
      FrontierChildren(p, a, n, l, r, b, m, m - 1);
      ChildShares(p, a, n, l, r, b, m);
    }
  }

  lemma {:induction false} OneRoot(p: seq<int>, b: nat, n: int, k: nat)
    requires 0 < n < |p| && k < n && forall x :: 1 <= x <= k ==> 0 <= p[x] <= n
    ensures Frontier(p, b, n, k) == 0
    decreases k
  {
    if k > 0 {
      OneRoot(p, b, n, k - 1);
    }
  }

  lemma {:induction false} FrontierIsKraft(p: seq<int>, a: int, n: int, l: map<int, int>, r: map<int, int>, b: nat, lens: seq<int>, k: nat)
    requires Links(p, a, n, l, r) && |lens| == k <= a
    requires forall i :: 0 <= i < k ==> 0 <= lens[i] <= b
    requires forall i :: 0 <= i < k ==> lens[i] == Depth(p, i + 1)
    ensures Canonical.Kraft(lens, b) == Frontier(p, b, a, k)
    decreases k
  {
    if k > 0 {
      FrontierIsKraft(p, a, n, l, r, b, lens[..k - 1], k - 1);
    }
  }

  /** A tree with one root uses up the whole code space. */
  lemma KraftExact(p: seq<int>, a: int, n: int, l: map<int, int>, r: map<int, int>, b: nat, lens: seq<int>)
    requires Links(p, a, n, l, r) && |lens| == a && p[n] == -1
    requires forall x :: 1 <= x < n ==> p[x] != -1
    requires forall i :: 0 <= i < a ==> 0 <= lens[i] <= b
    requires forall i :: 0 <= i < a ==> lens[i] == Depth(p, i + 1)
    ensures Canonical.Kraft(lens, b) == Pow2(b)
  {
    FrontierIsKraft(p, a, n, l, r, b, lens, a);
    forall x | 1 <= x <= a
      ensures Depth(p, x) <= b
    {
      assert lens[x - 1] <= b;
    }
    FrontierConstant(p, a, n, l, r, b, n);
    OneRoot(p, b, n, n - 1);
    Canonical.ShiftPow2(0, b);
  }

  lemma {:induction false} LightLeaves(w: seq<int>, k: nat)
    requires k < |w| && forall x :: 1 <= x <= k ==> Freq(w, x) <= 2
    ensures LeafSum(w, k) <= 2 * k
    decreases k
  {
    if k > 0 {
      LightLeaves(w, k - 1);
    }
  }

  lemma {:induction false} LeavesAreRoots(w: seq<int>, p: seq<int>, k: nat)
    requires k < |w| == |p| && forall x :: 1 <= x <= k ==> p[x] == -1
    ensures RootSum(w, p, k) == LeafSum(w, k)
    decreases k
  {
    if k > 0 {
      LeavesAreRoots(w, p, k - 1);
    }
  }

  lemma {:induction false} LastRootSum(w: seq<int>, p: seq<int>, n: nat, k: nat)
    requires k < n < |w| == |p| && forall x :: 1 <= x < n ==> p[x] != -1
    ensures RootSum(w, p, k) == 0
    decreases k
  {
    if k > 0 {
      LastRootSum(w, p, n, k - 1);
    }
  }
}
