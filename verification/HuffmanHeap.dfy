/** The binary heap of BZ2_hbMakeCodeLengths: UPHEAP and DOWNHEAP over entries 1..n, entry 0 a sentinel. */
module HuffmanHeap {
  import opened Permutations

  ghost predicate Nodes(h: seq<int>, w: seq<int>, n: int) {
    && 0 <= n < |h| && |w| > 0 && w[0] == 0 && h[0] == 0
    && (forall i :: 0 <= i <= n ==> 0 <= h[i] < |w|)
    && (forall x :: 0 <= x < |w| ==> 0 <= w[x])
  }

  /** Every entry is at least its parent entry. */
  ghost predicate Ordered(h: seq<int>, w: seq<int>, n: int)
    requires Nodes(h, w, n)
  {
    forall p, i :: 2 <= i <= n && p == i / 2 ==> w[h[p]] <= w[h[i]]
  }

  ghost predicate OrderedUp(h: seq<int>, w: seq<int>, n: int, z: int)
    requires Nodes(h, w, n)
  {
    && 1 <= z <= n
    && (forall p, i :: 2 <= i <= n && p == i / 2 && i != z ==> w[h[p]] <= w[h[i]])
    && (z >= 2 ==> forall i {:trigger h[i]} :: 2 <= i <= n && i / 2 == z ==> w[h[z / 2]] <= w[h[i]])
  }

  ghost predicate OrderedDown(h: seq<int>, w: seq<int>, n: int, z: int)
    requires Nodes(h, w, n)
  {
    && 1 <= z <= n
    && (forall p, i :: 2 <= i <= n && p == i / 2 && p != z ==> w[h[p]] <= w[h[i]])
    && (z >= 2 ==> forall i {:trigger h[i]} :: 2 <= i <= n && i / 2 == z ==> w[h[z / 2]] <= w[h[i]])
  }

  lemma {:induction false} RootLeast(h: seq<int>, w: seq<int>, n: int, i: int)
    requires Nodes(h, w, n) && Ordered(h, w, n) && 1 <= i <= n
    ensures w[h[1]] <= w[h[i]]
    decreases i
  {
    if i > 1 {
      RootLeast(h, w, n, i / 2);
    }
  }

  /** The heap as it would be with tmp put into its hole at z. */
  ghost predicate Hole(h: seq<int>, t: seq<int>, z: int, tmp: int) {
    0 <= z < |h| == |t| && t[z] == tmp && forall i :: 0 <= i < |h| && i != z ==> h[i] == t[i]
  }

  lemma MovesUp(t: seq<int>, w: seq<int>, n: int, z: int) returns (u: seq<int>)
    requires Nodes(t, w, n) && OrderedUp(t, w, n, z) && z >= 2 && w[t[z]] < w[t[z / 2]]
    ensures |u| == |t| && PermutesRange(t, u, 1, n + 1) && u[z] == t[z / 2] && u[z / 2] == t[z]
    ensures forall i :: 0 <= i < |t| && i != z && i != z / 2 ==> u[i] == t[i]
    ensures Nodes(u, w, n) && OrderedUp(u, w, n, z / 2)
  {
    u := Exchange(t, z, z / 2, 1, n + 1);
  }

  lemma MovesDown(t: seq<int>, w: seq<int>, n: int, z: int, y: int) returns (u: seq<int>)
    requires Nodes(t, w, n) && OrderedDown(t, w, n, z) && y / 2 == z && 2 <= y <= n && w[t[y]] <= w[t[z]]
    requires forall i {:trigger t[i]} :: 2 <= i <= n && i / 2 == z ==> w[t[y]] <= w[t[i]]
    ensures |u| == |t| && PermutesRange(t, u, 1, n + 1) && u[z] == t[y] && u[y] == t[z]
    ensures forall i :: 0 <= i < |t| && i != z && i != y ==> u[i] == t[i]
    ensures Nodes(u, w, n) && OrderedDown(u, w, n, y)
  {
    u := Exchange(t, z, y, 1, n + 1);
  }

  lemma Compose(s: seq<int>, t: seq<int>, u: seq<int>, lo: int, hi: int)
    requires PermutesRange(s, t, lo, hi) && PermutesRange(t, u, lo, hi)
    ensures PermutesRange(s, u, lo, hi)
  {
  }

  ghost predicate Rising(h: seq<int>, w: seq<int>, s: seq<int>, t: seq<int>, n: int, z: int, tmp: int) {
    && Nodes(t, w, n) && OrderedUp(t, w, n, z) && Hole(h, t, z, tmp) && PermutesRange(s, t, 1, n + 1)
  }

  ghost predicate Sinking(h: seq<int>, w: seq<int>, s: seq<int>, t: seq<int>, n: int, z: int, tmp: int) {
    && Nodes(t, w, n) && OrderedDown(t, w, n, z) && Hole(h, t, z, tmp) && PermutesRange(s, t, 1, n + 1)
  }

  lemma RiseStep(h: seq<int>, w: seq<int>, s: seq<int>, t: seq<int>, n: int, z: int, tmp: int) returns (u: seq<int>)
    requires Rising(h, w, s, t, n, z, tmp) && w[tmp] < w[h[z / 2]]
    ensures 1 <= z / 2 < z
    ensures Rising(h[z := h[z / 2]], w, s, u, n, z / 2, tmp)
  {
    u := MovesUp(t, w, n, z);
    Compose(s, t, u, 1, n + 1);
  }

  /** Entry y is the least child of z, and not above tmp. */
  ghost predicate LeastChild(h: seq<int>, w: seq<int>, n: int, z: int, tmp: int, y: int)
    requires Nodes(h, w, n) && 0 <= tmp < |w|
  {
    && y / 2 == z && 2 <= y <= n && w[h[y]] <= w[tmp]
    && forall i {:trigger h[i]} :: 2 <= i <= n && i / 2 == z ==> w[h[y]] <= w[h[i]]
  }

  ghost predicate ChildrenAbove(h: seq<int>, w: seq<int>, n: int, z: int, tmp: int)
    requires Nodes(h, w, n) && 0 <= tmp < |w|
  {
    forall i {:trigger h[i]} :: 2 <= i <= n && i / 2 == z ==> w[tmp] <= w[h[i]]
  }

  lemma SinkStep(h: seq<int>, w: seq<int>, s: seq<int>, t: seq<int>, n: int, z: int, tmp: int, y: int) returns (u: seq<int>)
    requires Sinking(h, w, s, t, n, z, tmp) && Nodes(h, w, n) && LeastChild(h, w, n, z, tmp, y)
    ensures z < y && Nodes(h[z := h[y]], w, n) && Sinking(h[z := h[y]], w, s, u, n, y, tmp)
  {
    u := MovesDown(t, w, n, z, y);
    Compose(s, t, u, 1, n + 1);
  }

  lemma Rest(h: seq<int>, t: seq<int>, z: int, tmp: int)
    requires Hole(h, t, z, tmp)
    ensures h[z := tmp] == t
  {
  }

  lemma Update(heap: array<int>, z: int, h: seq<int>, v: int)
    requires heap.Length == |h| && 0 <= z < |h| && heap[z] == v
    requires forall i :: 0 <= i < |h| && i != z ==> heap[i] == h[i]
    ensures heap[..] == h[z := v]
  {
  }

  /** UPHEAP(n): only entry n may be smaller than its parent. */
  method SiftUp(heap: array<int>, weight: array<int>, n: int)
    requires heap != weight && Nodes(heap[..], weight[..], n) && OrderedUp(heap[..], weight[..], n, n)
    modifies heap
    ensures Nodes(heap[..], weight[..], n) && Ordered(heap[..], weight[..], n)
    ensures PermutesRange(old(heap[..]), heap[..], 1, n + 1)
  {
    ghost var s, w := heap[..], weight[..];
    ghost var t := s;
    var z, tmp := n, heap[n];
    while weight[tmp] < weight[heap[z / 2]]
      invariant Rising(heap[..], w, s, t, n, z, tmp)
      decreases z
    {
      ghost var h := heap[..];
      t := RiseStep(h, w, s, t, n, z, tmp);
      heap[z] := heap[z / 2];
      Update(heap, z, h, h[z / 2]);
      z := z / 2;
    }
    Settled(heap[..], w, s, t, n, z, tmp);
    ghost var h := heap[..];
    heap[z] := tmp;
    Update(heap, z, h, tmp);
  }

  lemma Settled(h: seq<int>, w: seq<int>, s: seq<int>, t: seq<int>, n: int, z: int, tmp: int)
    requires Rising(h, w, s, t, n, z, tmp) && w[tmp] >= w[h[z / 2]]
    ensures h[z := tmp] == t && Ordered(t, w, n)
  {
    Rest(h, t, z, tmp);
  }

  lemma Sunk(h: seq<int>, w: seq<int>, s: seq<int>, t: seq<int>, n: int, z: int, tmp: int)
    requires Sinking(h, w, s, t, n, z, tmp) && Nodes(h, w, n) && ChildrenAbove(h, w, n, z, tmp)
    ensures h[z := tmp] == t && Ordered(t, w, n)
  {
    Rest(h, t, z, tmp);
  }

  /** The smaller child of z, if it is not above tmp. */
  method Child(heap: array<int>, weight: array<int>, n: int, z: int, tmp: int) returns (y: int, stop: bool)
    requires heap != weight && Nodes(heap[..], weight[..], n) && 1 <= z <= n && 0 <= tmp < weight.Length
    ensures stop ==> ChildrenAbove(heap[..], weight[..], n, z, tmp)
    ensures !stop ==> LeastChild(heap[..], weight[..], n, z, tmp, y)
  {
    y := 2 * z;
    if y > n {
      return y, true;
    }
    if y < n && weight[heap[y + 1]] < weight[heap[y]] {
      y := y + 1;
    }
    stop := weight[tmp] < weight[heap[y]];
  }

  /** One round of DOWNHEAP: the hole moves to the smaller child, or stays. */
  method Sink(heap: array<int>, weight: array<int>, n: int, z: int, tmp: int, ghost s: seq<int>, ghost t: seq<int>)
    returns (y: int, stop: bool, ghost u: seq<int>)
    requires heap != weight && Nodes(heap[..], weight[..], n) && Sinking(heap[..], weight[..], s, t, n, z, tmp)
    modifies heap
    ensures Nodes(heap[..], weight[..], n) && Sinking(heap[..], weight[..], s, u, n, y, tmp)
    ensures if stop then y == z && ChildrenAbove(heap[..], weight[..], n, z, tmp) else z < y <= n
  {
    y, stop := Child(heap, weight, n, z, tmp);
    if stop {
      y, u := z, t;
      return;
    }
    ghost var h := heap[..];
    u := SinkStep(h, weight[..], s, t, n, z, tmp, y);
    heap[z] := heap[y];
    Update(heap, z, h, h[y]);
  }

  /** DOWNHEAP(1): only the root may be larger than its children. */
  method SiftDown(heap: array<int>, weight: array<int>, n: int)
    requires heap != weight && Nodes(heap[..], weight[..], n) && OrderedDown(heap[..], weight[..], n, 1)
    modifies heap
    ensures Nodes(heap[..], weight[..], n) && Ordered(heap[..], weight[..], n)
    ensures PermutesRange(old(heap[..]), heap[..], 1, n + 1)
  {
    ghost var s, w := heap[..], weight[..];
    var z, tmp, stop := 1, heap[1], false;
    ghost var t := s;
    while !stop
      invariant Nodes(heap[..], w, n) && Sinking(heap[..], w, s, t, n, z, tmp)
      invariant stop ==> ChildrenAbove(heap[..], w, n, z, tmp)
      decreases n - z, !stop
    {
      z, stop, t := Sink(heap, weight, n, z, tmp, s, t);
    }
    Sunk(heap[..], w, s, t, n, z, tmp);
    ghost var h := heap[..];
    heap[z] := tmp;
    Update(heap, z, h, tmp);
  }

  ghost function Contents(h: seq<int>, n: int): multiset<int>
    requires 0 <= n < |h|
  {
    multiset(h[1..n + 1])
  }

  /** x weighs no more than any node in m. */
  ghost predicate Lightest(w: seq<int>, m: multiset<int>, x: int) {
    0 <= x < |w| && forall y :: y in m ==> 0 <= y < |w| && w[x] <= w[y]
  }

  lemma LeastInContents(h: seq<int>, w: seq<int>, n: int, x: int)
    requires Nodes(h, w, n) && Ordered(h, w, n) && x in Contents(h, n)
    ensures 0 <= x < |w| && n >= 1 && w[h[1]] <= w[x]
  {
    var i :| 0 <= i < |h[1..n + 1]| && h[1..n + 1][i] == x;
    assert h[i + 1] == x;
    RootLeast(h, w, n, i + 1);
  }

  lemma Append(h: seq<int>, g: seq<int>, n: int, x: int)
    requires 0 <= n && n + 1 < |h| == |g| && g[n + 1] == x && forall i :: 0 <= i <= n ==> g[i] == h[i]
    ensures Contents(g, n + 1) == Contents(h, n) + multiset{x}
  {
    assert g[1..n + 2] == h[1..n + 1] + [x];
  }

  lemma MoveLast(h: seq<int>, g: seq<int>, n: int)
    requires 1 < n < |h| && g == h[1 := h[n]]
    ensures Contents(h, n) == Contents(g, n - 1) + multiset{h[1]}
  {
    assert h[1..n + 1] == [h[1]] + h[2..n] + [h[n]];
    assert g[1..n] == [h[n]] + h[2..n];
  }

  /** heap[n + 1] := x; UPHEAP(n + 1). */
  method Insert(heap: array<int>, weight: array<int>, n: int, x: int)
    requires heap != weight && Nodes(heap[..], weight[..], n) && Ordered(heap[..], weight[..], n)
    requires n + 1 < heap.Length && 0 <= x < weight.Length
    modifies heap
    ensures Nodes(heap[..], weight[..], n + 1) && Ordered(heap[..], weight[..], n + 1)
    ensures Contents(heap[..], n + 1) == old(Contents(heap[..], n)) + multiset{x}
  {
    ghost var h := heap[..];
    heap[n + 1] := x;
    ghost var g := heap[..];
    Append(h, g, n, x);
    SiftUp(heap, weight, n + 1);
    PermutesSlice(g, heap[..], 1, n + 2);
  }

  lemma RootReplaced(h: seq<int>, g: seq<int>, w: seq<int>, n: int)
    requires 1 < n && Nodes(h, w, n) && Ordered(h, w, n) && g == h[1 := h[n]]
    ensures Nodes(g, w, n - 1) && OrderedDown(g, w, n - 1, 1)
  {
  }

  lemma RootGone(h: seq<int>, g: seq<int>, f: seq<int>, n: int)
    requires 1 < n < |h| && g == h[1 := h[n]] && PermutesRange(g, f, 1, n)
    ensures Contents(h, n) == Contents(f, n - 1) + multiset{h[1]}
  {
    MoveLast(h, g, n);
    PermutesSlice(g, f, 1, n);
  }

  method ReplaceRoot(heap: array<int>, weight: array<int>, n: int)
    requires heap != weight && n > 1 && Nodes(heap[..], weight[..], n) && Ordered(heap[..], weight[..], n)
    modifies heap
    ensures Nodes(heap[..], weight[..], n - 1) && Ordered(heap[..], weight[..], n - 1)
    ensures PermutesRange(old(heap[..])[1 := old(heap[n])], heap[..], 1, n)
  {
    RootReplaced(heap[..], heap[..][1 := heap[n]], weight[..], n);
    heap[1] := heap[n];
    assert heap[..] == old(heap[..])[1 := old(heap[n])];
    SiftDown(heap, weight, n - 1);
  }

  method RemoveRoot(heap: array<int>, weight: array<int>, n: int)
    requires heap != weight && n >= 1 && Nodes(heap[..], weight[..], n) && Ordered(heap[..], weight[..], n)
    modifies heap
    ensures Nodes(heap[..], weight[..], n - 1) && Ordered(heap[..], weight[..], n - 1)
    ensures old(Contents(heap[..], n)) == Contents(heap[..], n - 1) + multiset{old(heap[1])}
  {
    ghost var h := heap[..];
    if n == 1 {
      heap[1] := heap[n];
      assert heap[..] == h && h[1..2] == [h[1]] && h[1..1] == [];
    } else {
      ReplaceRoot(heap, weight, n);
      RootGone(h, h[1 := h[n]], heap[..], n);
    }
  }

  /** x := heap[1]; heap[1] := heap[n]; DOWNHEAP(1) on the n - 1 entries left. */
  method TakeLeast(heap: array<int>, weight: array<int>, n: int) returns (x: int)
    requires heap != weight && n >= 1 && Nodes(heap[..], weight[..], n) && Ordered(heap[..], weight[..], n)
    modifies heap
    ensures Nodes(heap[..], weight[..], n - 1) && Ordered(heap[..], weight[..], n - 1)
    ensures old(Contents(heap[..], n)) == Contents(heap[..], n - 1) + multiset{x}
    ensures Lightest(weight[..], Contents(heap[..], n - 1), x)
  {
    ghost var m := Contents(heap[..], n);
    x := heap[1];
    forall y | y in m
      ensures 0 <= y < weight.Length && weight[x] <= weight[y]
    {
      LeastInContents(heap[..], weight[..], n, y);
    }
    RemoveRoot(heap, weight, n);
  }
}
