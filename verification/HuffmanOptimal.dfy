/**
 * Why merging the two lightest subtrees is right: no lengths that a prefix code can have cost less than the depths of
 * the tree. Node x has frequency f[x]; after m nodes those without a parent among them are still to be merged.
 */
module HuffmanOptimal {
  import opened Bits
  import opened HuffmanTree
  import Canonical

  predicate Waiting(p: seq<int>, m: int, x: int)
    requires 0 <= x < |p|
  {
    p[x] < 0 || p[x] > m
  }

  /** Part of the code space that a code of length v takes, out of 2^b. */
  function Part(b: nat, v: int): nat {
    if 0 <= v <= b then Pow2(b - v) else 0
  }

  function Space(L: seq<int>, p: seq<int>, b: nat, m: int, k: nat): nat
    requires k < |p| == |L|
  {
    if k == 0 then 0 else Space(L, p, b, m, k - 1) + if Waiting(p, m, k) then Part(b, L[k]) else 0
  }

  function Price(L: seq<int>, f: seq<nat>, p: seq<int>, m: int, k: nat): int
    requires k < |p| == |L| == |f|
  {
    if k == 0 then 0 else Price(L, f, p, m, k - 1) + if Waiting(p, m, k) then f[k] * L[k] else 0
  }

  // One length changes

  lemma {:induction false} SpaceUpdate(L: seq<int>, p: seq<int>, b: nat, m: int, k: nat, x: int, v: int)
    requires k < |p| == |L| && 1 <= x < |L|
    ensures Space(L[x := v], p, b, m, k)
         == Space(L, p, b, m, k) + if x <= k && Waiting(p, m, x) then Part(b, v) - Part(b, L[x]) else 0
    decreases k
  {
    if k > 0 {
      SpaceUpdate(L, p, b, m, k - 1, x, v);
    }
  }

  lemma {:induction false} PriceUpdate(L: seq<int>, f: seq<nat>, p: seq<int>, m: int, k: nat, x: int, v: int)
    requires k < |p| == |L| == |f| && 1 <= x < |L|
    ensures Price(L[x := v], f, p, m, k)
         == Price(L, f, p, m, k) + if x <= k && Waiting(p, m, x) then f[x] * v - f[x] * L[x] else 0
    decreases k
  {
    if k > 0 {
      PriceUpdate(L, f, p, m, k - 1, x, v);
    }
  }

  /** Lengths that fit: each within b and all of them in the code space. */
  ghost predicate Fits(L: seq<int>, p: seq<int>, b: nat, m: int) {
    && 0 <= m < |p| == |L| && (forall x :: 1 <= x <= m && Waiting(p, m, x) ==> 0 <= L[x] <= b)
    && Space(L, p, b, m, m) <= Pow2(b)
  }

  function Swapped(L: seq<int>, x: int, z: int): seq<int>
    requires 0 <= x < |L| && 0 <= z < |L|
  {
    L[x := L[z]][z := L[x]]
  }

  /** Giving the lighter of two nodes the longer code costs no more. */
  lemma SwapFits(L: seq<int>, f: seq<nat>, p: seq<int>, b: nat, m: int, x: int, z: int)
    requires Fits(L, p, b, m) && |f| == |p| && 1 <= x <= m && 1 <= z <= m && Waiting(p, m, x) && Waiting(p, m, z)
    requires f[x] <= f[z] && L[x] <= L[z]
    ensures Fits(Swapped(L, x, z), p, b, m) && Price(Swapped(L, x, z), f, p, m, m) <= Price(L, f, p, m, m)
  {
    var M := L[x := L[z]];
    SpaceUpdate(L, p, b, m, m, x, L[z]);
    SpaceUpdate(M, p, b, m, m, z, L[x]);
    PriceUpdate(L, f, p, m, m, x, L[z]);
    PriceUpdate(M, f, p, m, m, z, L[x]);
    Crossed(f[x], f[z], L[x], L[z]);
  }

  lemma Crossed(f: nat, g: nat, u: int, v: int)
    requires f <= g && u <= v
    ensures f * v + g * u <= f * u + g * v
  {
    assert 0 <= (g - f) * (v - u);
    assert (g - f) * (v - u) == g * v - g * u - f * v + f * u;
  }

  // The longest code

  /** z has the longest code of the waiting nodes but skip. */
  ghost predicate Longest(L: seq<int>, p: seq<int>, m: int, k: int, skip: int, z: int) {
    && k < |p| == |L| && 1 <= z <= k && z != skip && Waiting(p, m, z)
    && forall x :: 1 <= x <= k && x != skip && Waiting(p, m, x) ==> L[x] <= L[z]
  }

  lemma FindLongest(L: seq<int>, p: seq<int>, m: int, k: nat, skip: int, x: int) returns (z: int)
    requires k < |p| == |L| && 1 <= x <= k && x != skip && Waiting(p, m, x)
    ensures Longest(L, p, m, k, skip, z)
  {
    z := x;
    for i := 1 to k + 1
      invariant 1 <= z <= k && z != skip && Waiting(p, m, z)
      invariant forall y :: 1 <= y < i && y != skip && Waiting(p, m, y) ==> L[y] <= L[z]
    {
      if i != skip && Waiting(p, m, i) && L[i] > L[z] { z := i; }
    }
  }

  /** x1 and x2, no heavier than any other waiting node, can have the two longest codes. */
  lemma Deepest(L: seq<int>, f: seq<nat>, p: seq<int>, b: nat, m: int, x1: int, x2: int) returns (M: seq<int>)
    requires Fits(L, p, b, m) && |f| == |p| && 1 <= x1 <= m && 1 <= x2 <= m && x1 != x2 && Waiting(p, m, x1) && Waiting(p, m, x2)
    requires forall x :: 1 <= x <= m && Waiting(p, m, x) && x != x1 && x != x2 ==> f[x1] <= f[x] && f[x2] <= f[x]
    requires f[x1] <= f[x2]
    ensures Fits(M, p, b, m) && Price(M, f, p, m, m) <= Price(L, f, p, m, m)
    ensures Longest(M, p, m, m, x1, x2) && M[x2] <= M[x1]
  {
    var z1 := FindLongest(L, p, m, m, 0, x1);
    SwapFits(L, f, p, b, m, x1, z1);
    var L1 := Swapped(L, x1, z1);
    assert forall x :: 1 <= x <= m && Waiting(p, m, x) ==> L1[x] <= L1[x1];
    var z2 := FindLongest(L1, p, m, m, x1, x2);
    SwapFits(L1, f, p, b, m, x2, z2);
    M := Swapped(L1, x2, z2);
  }

  // Both get the same length

  lemma PartScaled(b: nat, h: nat, v: int)
    requires 0 <= v <= h <= b
    ensures Part(b, v) == Pow2(b - h) * Part(h, v)
  {
    Pow2Add(b - h, h - v);
  }

  lemma {:induction false} SpaceScaled(L: seq<int>, p: seq<int>, b: nat, h: nat, m: int, k: nat)
    requires k < |p| == |L| && h <= b && forall x :: 1 <= x <= k && Waiting(p, m, x) ==> 0 <= L[x] <= h
    ensures Space(L, p, b, m, k) == Pow2(b - h) * Space(L, p, h, m, k)
    decreases k
  {
    if k > 0 {
      SpaceScaled(L, p, b, h, m, k - 1);
      if Waiting(p, m, k) {
        PartScaled(b, h, L[k]);
        Spread(Pow2(b - h), Space(L, p, h, m, k - 1), Part(h, L[k]));
      }
    }
  }

  lemma Grows(u: nat, s: nat, t: nat)
    requires s <= t
    ensures u * s <= u * t
  {
  }

  lemma Spread(u: int, s: int, t: int)
    ensures u * (s + t) == u * s + u * t
  {
  }

  /** A multiple of u that exceeds a multiple of u by less than u does not exceed it. */
  lemma NoMore(u: nat, q: nat, t: nat, e: nat)
    requires u * q + e <= u * t + u && e > 0
    ensures u * q <= u * t
  {
    if q > t {
      Grows(u, t + 1, q);
    }
  }

  /** The longest code can be as short as the next. */
  lemma Levelled(M: seq<int>, f: seq<nat>, p: seq<int>, b: nat, m: int, x1: int, x2: int)
    requires Fits(M, p, b, m) && |f| == |p| && 1 <= x1 <= m && x1 != x2 && Waiting(p, m, x1)
    requires Longest(M, p, m, m, x1, x2) && M[x2] <= M[x1]
    ensures Fits(M[x1 := M[x2]], p, b, m) && Price(M[x1 := M[x2]], f, p, m, m) <= Price(M, f, p, m, m)
  {
    var h: nat := M[x2];
    var N := M[x1 := h];
    SpaceUpdate(M, p, b, m, m, x1, h);
    PriceUpdate(M, f, p, m, m, x1, h);
    assert f[x1] * h <= f[x1] * M[x1];
    SpaceScaled(N, p, b, h, m, m);
    Pow2Add(b - h, h);
    NoMore(Pow2(b - h), Space(N, p, h, m, m), Pow2(h), Part(b, M[x1]));
  }

  // One merge

  lemma {:induction false} SpaceChildren(L: seq<int>, p: seq<int>, a: int, n: int, l: map<int, int>, r: map<int, int>, b: nat, y: int, k: nat)
    requires Links(p, a, n, l, r) && |L| == |p| && a < y <= n && k <= n
    ensures Space(L, p, b, y - 1, k)
         == Space(L, p, b, y, k) + (if l[y] <= k then Part(b, L[l[y]]) else 0) + (if r[y] <= k then Part(b, L[r[y]]) else 0)
    decreases k
  {
    if k > 0 {
      SpaceChildren(L, p, a, n, l, r, b, y, k - 1);
      assert p[k] == y <==> k == l[y] || k == r[y];
    }
  }

  lemma {:induction false} PriceChildren(L: seq<int>, f: seq<nat>, p: seq<int>, a: int, n: int, l: map<int, int>, r: map<int, int>, y: int, k: nat)
    requires Links(p, a, n, l, r) && |L| == |p| == |f| && a < y <= n && k <= n
    ensures Price(L, f, p, y - 1, k)
         == Price(L, f, p, y, k) + (if l[y] <= k then f[l[y]] * L[l[y]] else 0) + (if r[y] <= k then f[r[y]] * L[r[y]] else 0)
    decreases k
  {
    if k > 0 {
      PriceChildren(L, f, p, a, n, l, r, y, k - 1);
      assert p[k] == y <==> k == l[y] || k == r[y];
    }
  }

  /** The tree merges two nodes that are no heavier than the others, and adds up their frequencies. */
  ghost predicate Greedy(f: seq<nat>, p: seq<int>, a: int, n: int, l: map<int, int>, r: map<int, int>) {
    && |f| == |p| && Links(p, a, n, l, r)
    && (forall y :: a < y <= n ==> f[y] == f[l[y]] + f[r[y]] && f[l[y]] <= f[r[y]])
    && (forall y, x :: a < y <= n && 1 <= x < y && Waiting(p, y, x) ==> f[r[y]] <= f[x])
  }

  /** The frequencies of the nodes still to be made. */
  function Owed(f: seq<nat>, n: int, m: int): nat
    requires 0 <= m <= n < |f|
    decreases n - m
  {
    if m == n then 0 else f[m + 1] + Owed(f, n, m + 1)
  }

  lemma Children(p: seq<int>, a: int, n: int, l: map<int, int>, r: map<int, int>, y: int)
    requires Links(p, a, n, l, r) && a < y <= n
    ensures p[l[y]] == y && p[r[y]] == y && Waiting(p, y - 1, l[y]) && Waiting(p, y - 1, r[y])
    ensures Waiting(p, y, y) && forall x :: 1 <= x < y && Waiting(p, y - 1, x) && x != l[y] && x != r[y] ==> Waiting(p, y, x)
  {
    forall x | 1 <= x < y && Waiting(p, y - 1, x) && x != l[y] && x != r[y]
      ensures Waiting(p, y, x)
    {
      assert p[x] == y <==> x == l[y] || x == r[y];
    }
  }

  lemma TwoParts(b: nat, h: nat)
    requires h <= b && 2 * Part(b, h) <= Pow2(b)
    ensures h >= 1 && Part(b, h - 1) == 2 * Part(b, h)
  {
  }

  lemma TwoPrices(f: nat, g: nat, s: nat, h: int)
    requires s == f + g
    ensures s * (h - 1) == f * h + g * h - s
  {
    Spread(h - 1, f, g);
  }

  lemma PriceLast(L: seq<int>, f: seq<nat>, p: seq<int>, y: nat, v: int)
    requires 1 <= y < |p| == |L| == |f| && Waiting(p, y, y)
    ensures Price(L[y := v], f, p, y, y) == Price(L, f, p, y, y - 1) + f[y] * v
  {
    PriceUpdate(L, f, p, y, y - 1, y, v);
  }

  lemma MergedSpace(N: seq<int>, p: seq<int>, a: int, n: int, l: map<int, int>, r: map<int, int>, b: nat, y: int, h: nat)
    requires Links(p, a, n, l, r) && a < y <= n && Fits(N, p, b, y - 1) && N[l[y]] == N[r[y]] == h
    ensures h >= 1 && Fits(N[y := h - 1], p, b, y)
  {
    Children(p, a, n, l, r, y);
    SpaceChildren(N, p, a, n, l, r, b, y, y - 1);
    TwoParts(b, h);
    SpaceUpdate(N, p, b, y, y - 1, y, h - 1);
  }

  lemma MergedPrice(N: seq<int>, f: seq<nat>, p: seq<int>, a: int, n: int, l: map<int, int>, r: map<int, int>, y: int, h: int)
    requires Links(p, a, n, l, r) && a < y <= n && |N| == |f| == |p| && N[l[y]] == N[r[y]] == h && f[y] == f[l[y]] + f[r[y]]
    ensures Price(N[y := h - 1], f, p, y, y) == Price(N, f, p, y - 1, y - 1) - f[y]
  {
    Children(p, a, n, l, r, y);
    PriceChildren(N, f, p, a, n, l, r, y, y - 1);
    PriceLast(N, f, p, y, h - 1);
    TwoPrices(f[l[y]], f[r[y]], f[y], h);
  }

  /** Two children of length h leave the space of one node of length h - 1. */
  lemma Merged(N: seq<int>, f: seq<nat>, p: seq<int>, a: int, n: int, l: map<int, int>, r: map<int, int>, b: nat, y: int, h: nat)
    requires Greedy(f, p, a, n, l, r) && a < y <= n && Fits(N, p, b, y - 1) && N[l[y]] == N[r[y]] == h
    ensures h >= 1 && Fits(N[y := h - 1], p, b, y)
    ensures Price(N[y := h - 1], f, p, y, y) == Price(N, f, p, y - 1, y - 1) - f[y]
  {
    MergedSpace(N, p, a, n, l, r, b, y, h);
    MergedPrice(N, f, p, a, n, l, r, y, h);
  }

  lemma {:induction false} PriceNat(L: seq<int>, f: seq<nat>, p: seq<int>, m: int, k: nat)
    requires k < |p| == |L| == |f| && forall x :: 1 <= x <= k && Waiting(p, m, x) ==> 0 <= L[x]
    ensures 0 <= Price(L, f, p, m, k)
    decreases k
  {
    if k > 0 {
      PriceNat(L, f, p, m, k - 1);
      if Waiting(p, m, k) { assert 0 <= f[k] * L[k]; }
    }
  }

  /** Whatever lengths the waiting nodes get, they cost at least the frequencies of the nodes to come. */
  lemma {:induction false} AtLeast(L: seq<int>, f: seq<nat>, p: seq<int>, a: int, n: int, l: map<int, int>, r: map<int, int>, b: nat, m: int)
    requires Greedy(f, p, a, n, l, r) && a <= m <= n && Fits(L, p, b, m)
    ensures Owed(f, n, m) <= Price(L, f, p, m, m)
    decreases n - m
  {
    if m == n {
      PriceNat(L, f, p, m, m);
    } else {
      var y := m + 1;
      Children(p, a, n, l, r, y);
      var M := Deepest(L, f, p, b, m, l[y], r[y]);
      Levelled(M, f, p, b, m, l[y], r[y]);
      var N := M[l[y] := M[r[y]]];
      Merged(N, f, p, a, n, l, r, b, y, N[r[y]]);
      AtLeast(N[y := N[r[y]] - 1], f, p, a, n, l, r, b, y);
    }
  }

  lemma DepthStep(D: seq<int>, f: seq<nat>, p: seq<int>, a: int, n: int, l: map<int, int>, r: map<int, int>, y: int)
    requires Greedy(f, p, a, n, l, r) && a < y <= n && |D| == |p| && D[l[y]] == D[y] + 1 && D[r[y]] == D[y] + 1
    ensures Price(D, f, p, y - 1, y - 1) == Price(D, f, p, y, y) + f[y]
  {
    MergedPrice(D, f, p, a, n, l, r, y, D[y] + 1);
    assert D[y := D[y]] == D;
  }

  /** The depths of the tree cost exactly that. */
  lemma {:induction false} DepthPrice(D: seq<int>, f: seq<nat>, p: seq<int>, a: int, n: int, l: map<int, int>, r: map<int, int>, m: int)
    requires Greedy(f, p, a, n, l, r) && a <= m <= n && |D| == |p| && p[n] == -1 && (forall x :: 1 <= x < n ==> p[x] != -1)
    requires forall x :: 1 <= x <= n ==> D[x] == Depth(p, x)
    ensures Price(D, f, p, m, m) == Owed(f, n, m)
    decreases n - m
  {
    if m == n {
      NoneWaiting(D, f, p, n, n - 1);
      assert D[n] == 0;
    } else {
      Children(p, a, n, l, r, m + 1);
      DepthPrice(D, f, p, a, n, l, r, m + 1);
      DepthStep(D, f, p, a, n, l, r, m + 1);
    }
  }

  lemma {:induction false} NoneWaiting(D: seq<int>, f: seq<nat>, p: seq<int>, n: int, k: nat)
    requires 0 < n < |p| == |D| == |f| && k < n && forall x :: 1 <= x <= k ==> 0 <= p[x] <= n
    ensures Price(D, f, p, n, k) == 0
    decreases k
  {
    if k > 0 {
      NoneWaiting(D, f, p, n, k - 1);
    }
  }

  // In terms of the symbols

  /** Bits that the symbols take altogether. */
  function Cost(f: seq<nat>, lens: seq<int>): int
    requires |f| == |lens|
  {
    if f == [] then 0 else Cost(f[..|f| - 1], lens[..|f| - 1]) + f[|f| - 1] * lens[|f| - 1]
  }

  /** Lengths that some prefix code has, by Kraft's inequality. */
  ghost predicate Feasible(lens: seq<int>, b: nat) {
    (forall i :: 0 <= i < |lens| ==> 0 <= lens[i] <= b) && Canonical.Kraft(lens, b) <= Pow2(b)
  }

  /** No prefix code costs less. */
  ghost predicate Optimal(f: seq<nat>, lens: seq<int>) {
    |f| == |lens| && forall o, b :: |o| == |f| && Feasible(o, b) ==> Cost(f, lens) <= Cost(f, o)
  }

  lemma {:induction false} SymbolSpace(L: seq<int>, p: seq<int>, a: int, b: nat, lens: seq<int>, k: nat)
    requires k <= a < |p| == |L| && |lens| == k && (forall i :: 0 <= i < k ==> 0 <= lens[i] <= b && L[i + 1] == lens[i])
    requires forall x :: 1 <= x <= k ==> Waiting(p, a, x)
    ensures Space(L, p, b, a, k) == Canonical.Kraft(lens, b)
    decreases k
  {
    if k > 0 {
      SymbolSpace(L, p, a, b, lens[..k - 1], k - 1);
      Canonical.ShiftPow2(0, b - lens[k - 1]);
    }
  }

  lemma {:induction false} SymbolPrice(L: seq<int>, f: seq<nat>, p: seq<int>, a: int, g: seq<nat>, lens: seq<int>, k: nat)
    requires k <= a < |p| == |L| == |f| && |lens| == k == |g|
    requires forall i :: 0 <= i < k ==> L[i + 1] == lens[i] && f[i + 1] == g[i]
    requires forall x :: 1 <= x <= k ==> Waiting(p, a, x)
    ensures Price(L, f, p, a, k) == Cost(g, lens)
    decreases k
  {
    if k > 0 {
      SymbolPrice(L, f, p, a, g[..k - 1], lens[..k - 1], k - 1);
    }
  }

  lemma LowerBound(f: seq<nat>, p: seq<int>, a: int, n: int, l: map<int, int>, r: map<int, int>, g: seq<nat>, o: seq<int>, b: nat)
    requires Greedy(f, p, a, n, l, r) && |g| == |o| == a && Feasible(o, b) && forall i :: 0 <= i < a ==> f[i + 1] == g[i]
    ensures Owed(f, n, a) <= Cost(g, o)
  {
    var L := seq(|p|, x requires 0 <= x < |p| => if 1 <= x <= a then o[x - 1] else 0);
    SymbolSpace(L, p, a, b, o, a);
    SymbolPrice(L, f, p, a, g, o, a);
    AtLeast(L, f, p, a, n, l, r, b, a);
  }

  /** The depths of a greedy tree are an optimal code for its symbols. */
  lemma TreeOptimal(f: seq<nat>, p: seq<int>, a: int, n: int, l: map<int, int>, r: map<int, int>, g: seq<nat>, lens: seq<int>)
    requires Greedy(f, p, a, n, l, r) && |g| == |lens| == a && p[n] == -1 && (forall x :: 1 <= x < n ==> p[x] != -1)
    requires forall i :: 0 <= i < a ==> f[i + 1] == g[i] && lens[i] == Depth(p, i + 1)
    ensures Optimal(g, lens)
  {
    var D := seq(|p|, x requires 0 <= x < |p| => Depth(p, x));
    DepthPrice(D, f, p, a, n, l, r, a);
    SymbolPrice(D, f, p, a, g, lens, a);
    forall o, b | |o| == a && Feasible(o, b)
      ensures Cost(g, lens) <= Cost(g, o)
    {
      LowerBound(f, p, a, n, l, r, g, o, b);
    }
  }

  // A heavier symbol never gets the longer code

  lemma {:induction false} CostUpdate(f: seq<nat>, lens: seq<int>, i: nat, v: int)
    requires i < |f| == |lens|
    ensures Cost(f, lens[i := v]) == Cost(f, lens) + f[i] * v - f[i] * lens[i]
    decreases |f|
  {
    var k := |f| - 1;
    if i == k {
      assert lens[i := v][..k] == lens[..k];
    } else {
      assert lens[i := v][..k] == lens[..k][i := v];
      CostUpdate(f[..k], lens[..k], i, v);
    }
  }

  lemma {:induction false} KraftUpdate(lens: seq<int>, b: nat, i: nat, v: int)
    requires i < |lens| && 0 <= v <= b && forall j :: 0 <= j < |lens| ==> 0 <= lens[j] <= b
    ensures Canonical.Kraft(lens[i := v], b) == Canonical.Kraft(lens, b) + ShiftLeft(1, b - v) - ShiftLeft(1, b - lens[i])
    decreases |lens|
  {
    var k := |lens| - 1;
    if i == k {
      assert lens[i := v][..k] == lens[..k];
    } else {
      assert lens[i := v][..k] == lens[..k][i := v];
      KraftUpdate(lens[..k], b, i, v);
    }
  }

  lemma SwapFeasible(lens: seq<int>, b: nat, i: nat, j: nat)
    requires Feasible(lens, b) && i < |lens| && j < |lens| && i != j
    ensures Feasible(Swapped(lens, i, j), b)
  {
    KraftUpdate(lens, b, i, lens[j]);
    KraftUpdate(lens[i := lens[j]], b, j, lens[i]);
  }

  lemma SwapCost(f: seq<nat>, lens: seq<int>, i: nat, j: nat)
    requires |f| == |lens| && i < |f| && j < |f| && i != j
    ensures Cost(f, Swapped(lens, i, j)) == Cost(f, lens) + f[i] * lens[j] + f[j] * lens[i] - f[i] * lens[i] - f[j] * lens[j]
  {
    CostUpdate(f, lens, i, lens[j]);
    CostUpdate(f, lens[i := lens[j]], j, lens[i]);
  }

  lemma StrictlyCrossed(f: nat, g: nat, u: int, v: int)
    requires f > g && u > v
    ensures f * v + g * u < f * u + g * v
  {
    assert 0 < (f - g) * (u - v);
    assert (f - g) * (u - v) == f * u - f * v - g * u + g * v;
  }

  lemma HeavierNotLonger(f: seq<nat>, lens: seq<int>, b: nat, i: nat, j: nat)
    requires Optimal(f, lens) && Feasible(lens, b) && i < |f| && j < |f| && f[i] > f[j]
    ensures lens[i] <= lens[j]
  {
    if lens[i] > lens[j] {
      SwapFeasible(lens, b, i, j);
      SwapCost(f, lens, i, j);
      StrictlyCrossed(f[i], f[j], lens[i], lens[j]);
    }
  }
}
