/** BZ2_hbMakeCodeLengths: length-limited prefix codes by repeated scaling of the frequencies. */
module CodeLengths {
  import opened Bits
  import opened HuffmanHeap
  import opened HuffmanOptimal
  import opened HuffmanTree
  import Canonical

  /** Which children each inner node got, and the heavier weight of the last merge. */
  datatype Shape = Shape(l: map<int, int>, r: map<int, int>, last: int)

  ghost predicate Forest(w: seq<int>, p: seq<int>, a: int, n: int, g: Shape, m: multiset<int>, total: int) {
    && 2 <= a <= n < |w| == |p| == MAX_NODES && w[0] == 0
    && Links(p, a, n, g.l, g.r) && Heights(w, p, a, n) && Roots(p, n, m) && Heavy(w, m, g.last)
    && RootSum(w, p, n) == total <= MAX_TOTAL
    && (forall x :: 0 <= x < |w| ==> 0 <= w[x] < 0x8000_0000)
  }

  /** Every merge so far took two of the lightest roots. */
  ghost predicate Merging(w: seq<int>, p: seq<int>, a: int, n: int, g: Shape) {
    && |w| == |p| && Links(p, a, n, g.l, g.r)
    && (forall y :: a < y <= n ==> Freq(w, y) == Freq(w, g.l[y]) + Freq(w, g.r[y]) && Freq(w, g.l[y]) <= Freq(w, g.r[y]))
    && (forall y, x :: a < y <= n && 1 <= x < y && Waiting(p, y, x) ==> Freq(w, g.r[y]) <= Freq(w, x))
  }

  lemma SameOrder(h: seq<int>, w: seq<int>, v: seq<int>, n: int)
    requires Nodes(h, w, n) && Ordered(h, w, n) && |v| == |w| && v[0] == 0
    requires forall x :: 0 <= x < |v| ==> 0 <= v[x]
    requires forall x :: x in Contents(h, n) ==> 0 <= x < |v| && v[x] == w[x]
    ensures Nodes(h, v, n) && Ordered(h, v, n)
  {
    forall i | 1 <= i <= n
      ensures v[h[i]] == w[h[i]]
    {
      assert h[1..n + 1][i - 1] == h[i];
    }
  }

  /** The two lightest subtrees leave the heap. */
  method TakeTwo(heap: array<int>, weight: array<int>, n: int) returns (n1: int, n2: int)
    requires heap != weight && n >= 2 && Nodes(heap[..], weight[..], n) && Ordered(heap[..], weight[..], n)
    modifies heap
    ensures Nodes(heap[..], weight[..], n - 2) && Ordered(heap[..], weight[..], n - 2)
    ensures old(Contents(heap[..], n)) == Contents(heap[..], n - 2) + multiset{n1, n2}
    ensures Lightest(weight[..], multiset{n2}, n1) && Lightest(weight[..], Contents(heap[..], n - 2), n2)
  {
    n1 := TakeLeast(heap, weight, n);
    ghost var m := Contents(heap[..], n - 1);
    n2 := TakeLeast(heap, weight, n - 1);
    Both(weight[..], old(Contents(heap[..], n)), m, Contents(heap[..], n - 2), n1, n2);
  }

  lemma Both(w: seq<int>, all: multiset<int>, m: multiset<int>, k: multiset<int>, n1: int, n2: int)
    requires Lightest(w, m, n1) && all == m + multiset{n1} && m == k + multiset{n2}
    ensures Lightest(w, multiset{n2}, n1) && all == k + multiset{n1, n2}
  {
    assert n2 in m;
  }

  lemma Distinct(p: seq<int>, n: int, m: multiset<int>, k: multiset<int>, x1: int, x2: int)
    requires Roots(p, n, m) && m == k + multiset{x1, x2}
    ensures x1 != x2 && 1 <= x1 <= n && 1 <= x2 <= n && p[x1] == -1 && p[x2] == -1
    ensures x1 in m && x2 in m
  {
    assert m[x1] >= if x1 == x2 then 2 else 1;
    assert m[x2] >= 1;
  }

  lemma SumOfWeights(a: int, b: int, y: int)
    requires 0 <= a && 0 <= b && a % 256 < 33 && b % 256 < 33 && y == AddWeights(a, b)
    ensures y / 256 == a / 256 + b / 256
    ensures y % 256 == 1 + if a % 256 > b % 256 then a % 256 else b % 256
  {
  }

  /** The arrays after node n + 1 has become the parent of n1 and n2. */
  ghost predicate Joining(w: seq<int>, v: seq<int>, p: seq<int>, q: seq<int>, n: int, n1: int, n2: int) {
    && 0 <= n1 <= n && 0 <= n2 <= n && n + 1 < |v| == |w| == |q| == |p| && v[n + 1] == AddWeights(w[n1], w[n2])
    && (forall x :: 0 <= x < |w| && x != n + 1 ==> v[x] == w[x])
    && (forall x :: 0 <= x < |w| && x != n1 && x != n2 && x != n + 1 ==> q[x] == p[x])
    && q[n1] == q[n2] == n + 1 && q[n + 1] == -1
  }

  lemma NewWeight(w: seq<int>, v: seq<int>, p: seq<int>, q: seq<int>, a: int, n: int, g: Shape, m: multiset<int>, total: int, n1: int, n2: int)
    requires Forest(w, p, a, n, g, m, total) && Joining(w, v, p, q, n, n1, n2) && n1 in m && n2 in m && n1 != n2
    ensures 0 <= v[n + 1] < 0x8000_0000 && Freq(v, n + 1) == Freq(w, n1) + Freq(w, n2)
    ensures Height(v, n + 1) == 1 + if Height(w, n1) > Height(w, n2) then Height(w, n1) else Height(w, n2)
  {
    HeightBound(w, p, n, m, g.last, n1);
    HeightBound(w, p, n, m, g.last, n2);
    PairBound(w, p, n, m, g.last, n1, n2);
    SumOfWeights(w[n1], w[n2], v[n + 1]);
  }

  lemma JoinedShape(w: seq<int>, v: seq<int>, p: seq<int>, q: seq<int>, a: int, n: int, g: Shape, m: multiset<int>, k: multiset<int>, n1: int, n2: int)
    requires Joining(w, v, p, q, n, n1, n2) && m == k + multiset{n1, n2}
    requires Links(p, a, n, g.l, g.r) && Heights(w, p, a, n) && Roots(p, n, m)
    requires Height(v, n + 1) > Height(w, n1) && Height(v, n + 1) > Height(w, n2)
    ensures Links(q, a, n + 1, g.l[n + 1 := n1], g.r[n + 1 := n2]) && Heights(v, q, a, n + 1) && Roots(q, n + 1, k + multiset{n + 1})
  {
    Distinct(p, n, m, k, n1, n2);
    JoinLinks(p, q, a, n, g.l, g.r, n1, n2);
    JoinHeights(w, v, p, q, a, n, n1, n2);
    JoinRoots(p, q, n, m, k, n1, n2);
  }

  lemma Joined(w: seq<int>, v: seq<int>, p: seq<int>, q: seq<int>, a: int, n: int, g: Shape, m: multiset<int>, k: multiset<int>, total: int, n1: int, n2: int)
    returns (g': Shape)
    requires Forest(w, p, a, n, g, m, total) && m == k + multiset{n1, n2} && Joining(w, v, p, q, n, n1, n2)
    requires Lightest(w, multiset{n2}, n1) && Lightest(w, k, n2)
    ensures Forest(v, q, a, n + 1, g', k + multiset{n + 1}, total)
    ensures Freq(v, n + 1) == Freq(w, n1) + Freq(w, n2) && g'.l == g.l[n + 1 := n1] && g'.r == g.r[n + 1 := n2]
  {
    Distinct(p, n, m, k, n1, n2);
    NewWeight(w, v, p, q, a, n, g, m, total, n1, n2);
    g' := Shape(g.l[n + 1 := n1], g.r[n + 1 := n2], Freq(w, n2));
    assert n2 in multiset{n2};
    JoinedShape(w, v, p, q, a, n, g, m, k, n1, n2);
    JoinHeavy(w, v, m, k, g.last, n1, n2, n + 1);
    RootSumSame(w, v, p, q, n, n1, n2);
  }

  lemma StillMerging(w: seq<int>, v: seq<int>, p: seq<int>, q: seq<int>, a: int, n: int, g: Shape, g': Shape, m: multiset<int>, k: multiset<int>, n1: int, n2: int)
    requires Merging(w, p, a, n, g) && Joining(w, v, p, q, n, n1, n2) && Roots(p, n, m) && m == k + multiset{n1, n2}
    requires Lightest(w, multiset{n2}, n1) && Lightest(w, k, n2) && Links(q, a, n + 1, g'.l, g'.r)
    requires Freq(v, n + 1) == Freq(w, n1) + Freq(w, n2) && g'.l == g.l[n + 1 := n1] && g'.r == g.r[n + 1 := n2]
    ensures Merging(v, q, a, n + 1, g')
  {
    Distinct(p, n, m, k, n1, n2);
    assert n2 in multiset{n2};
    forall y, x | a < y <= n + 1 && 1 <= x < y && Waiting(q, y, x)
      ensures Freq(v, g'.r[y]) <= Freq(v, x)
    {
      if y == n + 1 {
        assert x != n1 && x != n2;
        assert m[x] == 1;
        assert x in k;
      } else {
        assert Waiting(p, y, x);
      }
    }
  }

  /** n1 and n2 get a common parent, which joins the heap's candidates. */
  method Link(weight: array<int>, parent: array<int>, n: int, n1: int, n2: int)
    requires weight != parent && 1 <= n1 <= n && 1 <= n2 <= n && n + 1 < weight.Length == parent.Length
    modifies weight, parent
    ensures Joining(old(weight[..]), weight[..], old(parent[..]), parent[..], n, n1, n2)
  {
    parent[n1] := n + 1;
    parent[n2] := n + 1;
    weight[n + 1] := AddWeights(weight[n1], weight[n2]);
    parent[n + 1] := -1;
  }

  method Graft(heap: array<int>, weight: array<int>, parent: array<int>, a: int, nHeap: int, nNodes: int, n1: int, n2: int,
               ghost g: Shape, ghost m: multiset<int>, ghost total: int)
    returns (ghost g': Shape)
    requires heap != weight && heap != parent && weight != parent
    requires Nodes(heap[..], weight[..], nHeap) && Ordered(heap[..], weight[..], nHeap) && nHeap + 1 < heap.Length
    requires Forest(weight[..], parent[..], a, nNodes, g, m, total) && nNodes + 1 < MAX_NODES
    requires m == Contents(heap[..], nHeap) + multiset{n1, n2} && Merging(weight[..], parent[..], a, nNodes, g)
    requires Lightest(weight[..], multiset{n2}, n1) && Lightest(weight[..], Contents(heap[..], nHeap), n2)
    modifies heap, weight, parent
    ensures Nodes(heap[..], weight[..], nHeap + 1) && Ordered(heap[..], weight[..], nHeap + 1)
    ensures Forest(weight[..], parent[..], a, nNodes + 1, g', Contents(heap[..], nHeap + 1), total)
    ensures Merging(weight[..], parent[..], a, nNodes + 1, g')
    ensures forall x :: 1 <= x <= a ==> weight[x] == old(weight[x])
  {
    ghost var w, p, k := weight[..], parent[..], Contents(heap[..], nHeap);
    Distinct(p, nNodes, m, k, n1, n2);
    Link(weight, parent, nNodes, n1, n2);
    g' := Joined(w, weight[..], p, parent[..], a, nNodes, g, m, k, total, n1, n2);
    StillMerging(w, weight[..], p, parent[..], a, nNodes, g, g', m, k, n1, n2);
    StillOrdered(heap[..], w, weight[..], p, nHeap, nNodes, m, k, n1, n2);
    Insert(heap, weight, nHeap, nNodes + 1);
  }

  method Merge(heap: array<int>, weight: array<int>, parent: array<int>, a: int, nHeap: int, nNodes: int, ghost g: Shape, ghost total: int)
    returns (ghost g': Shape)
    requires heap != weight && heap != parent && weight != parent
    requires nHeap >= 2 && Nodes(heap[..], weight[..], nHeap) && Ordered(heap[..], weight[..], nHeap)
    requires Forest(weight[..], parent[..], a, nNodes, g, Contents(heap[..], nHeap), total) && nNodes + 1 < MAX_NODES
    requires Merging(weight[..], parent[..], a, nNodes, g)
    modifies heap, weight, parent
    ensures Nodes(heap[..], weight[..], nHeap - 1) && Ordered(heap[..], weight[..], nHeap - 1)
    ensures Forest(weight[..], parent[..], a, nNodes + 1, g', Contents(heap[..], nHeap - 1), total)
    ensures Merging(weight[..], parent[..], a, nNodes + 1, g')
    ensures forall x :: 1 <= x <= a ==> weight[x] == old(weight[x])
  {
    ghost var m := Contents(heap[..], nHeap);
    var n1, n2 := TakeTwo(heap, weight, nHeap);
    g' := Graft(heap, weight, parent, a, nHeap - 2, nNodes, n1, n2, g, m, total);
  }

  lemma StillOrdered(h: seq<int>, w: seq<int>, v: seq<int>, p: seq<int>, n: int, nNodes: int, m: multiset<int>, k: multiset<int>, n1: int, n2: int)
    requires Nodes(h, w, n) && Ordered(h, w, n) && k == Contents(h, n) && m == k + multiset{n1, n2} && Roots(p, nNodes, m)
    requires |v| == |w| && nNodes < |v| && (forall x :: 0 <= x < |w| && x != nNodes + 1 ==> v[x] == w[x])
    requires nNodes >= 0 && forall x :: 0 <= x < |v| ==> 0 <= v[x]
    ensures Nodes(h, v, n) && Ordered(h, v, n)
  {
    forall x | x in k
      ensures 0 <= x < |v| && v[x] == w[x]
    {
      assert x in m;
    }
    SameOrder(h, w, v, n);
  }

  /** The symbols' weights: positive frequencies, heights zero. */
  ghost predicate Leaves(w: seq<int>, a: int) {
    && 2 <= a <= MAX_SYMBOLS && |w| == MAX_NODES && 0 <= LeafSum(w, a) <= MAX_TOTAL
    && (forall x :: 1 <= x <= a ==> w[x] % 256 == 0 && w[x] / 256 >= 1)
    && (forall x :: 0 <= x < |w| ==> 0 <= w[x] < 0x8000_0000)
  }

  /** Exactly the nodes 1..k, once each. */
  ghost predicate UpTo(m: multiset<int>, k: int) {
    (forall x :: x in m ==> 1 <= x <= k) && forall x :: 1 <= x <= k ==> m[x] == 1
  }

  lemma FirstForest(w: seq<int>, p: seq<int>, a: int, m: multiset<int>) returns (g: Shape)
    requires Leaves(w, a) && w[0] == 0 && |p| == |w| && (forall x :: 1 <= x <= a ==> p[x] == -1) && UpTo(m, a)
    ensures Forest(w, p, a, a, g, m, LeafSum(w, a)) && Merging(w, p, a, a, g)
  {
    g := Shape(map[], map[], 1);
    LeavesAreRoots(w, p, a);
  }

  ghost predicate Loaded(h: seq<int>, w: seq<int>, p: seq<int>, k: int) {
    && 0 <= k < |p| && Nodes(h, w, k) && Ordered(h, w, k) && UpTo(Contents(h, k), k)
    && forall x :: 1 <= x <= k ==> p[x] == -1
  }

  method Load(heap: array<int>, weight: array<int>, parent: array<int>, i: int)
    requires heap != weight && heap != parent && weight != parent && 1 <= i < heap.Length && i < weight.Length && i < parent.Length
    requires Loaded(heap[..], weight[..], parent[..], i - 1)
    modifies heap, parent
    ensures Loaded(heap[..], weight[..], parent[..], i)
  {
    parent[i] := -1;
    ghost var m := Contents(heap[..], i - 1);
    Insert(heap, weight, i - 1, i);
    OneMore(m, Contents(heap[..], i), i);
  }

  method FillHeap(heap: array<int>, weight: array<int>, parent: array<int>, a: int)
    requires heap != weight && heap != parent && weight != parent && heap.Length == MAX_SYMBOLS + 2
    requires Leaves(weight[..], a) && parent.Length == MAX_NODES && weight[0] == 0
    modifies heap, parent
    ensures Loaded(heap[..], weight[..], parent[..], a)
  {
    heap[0] := 0;
    parent[0] := -2;
    assert heap[1..1] == [];
    for i := 1 to a + 1
      invariant Loaded(heap[..], weight[..], parent[..], i - 1)
    {
      Load(heap, weight, parent, i);
      assert i < MAX_SYMBOLS + 2;
    }
  }

  lemma OneMore(m: multiset<int>, k: multiset<int>, i: int)
    requires 1 <= i && UpTo(m, i - 1) && k == m + multiset{i}
    ensures UpTo(k, i)
  {
    assert i !in m;
    forall x | x in k
      ensures 1 <= x <= i
    {
      assert x == i || x in m;
    }
  }

  lemma OneRootLeft(w: seq<int>, h: seq<int>, p: seq<int>, a: int, n: int, g: Shape, total: int)
    requires |h| > 1 && Forest(w, p, a, n, g, Contents(h, 1), total)
    ensures p[n] == -1 && forall x :: 1 <= x < n ==> p[x] != -1
  {
    var m := Contents(h, 1);
    assert h[1..2] == [h[1]];
    assert m == multiset{h[1]};
    assert n in m;
  }

  method StartTree(heap: array<int>, weight: array<int>, parent: array<int>, a: int) returns (ghost g: Shape)
    requires heap != weight && heap != parent && weight != parent && heap.Length == MAX_SYMBOLS + 2
    requires Leaves(weight[..], a) && parent.Length == MAX_NODES
    modifies heap, weight, parent
    ensures Underway(old(weight[..]), heap[..], weight[..], parent[..], a, a, a, g, old(LeafSum(weight[..], a)))
  {
    ghost var w := weight[..];
    weight[0] := 0;
    SameLeafSum(w, weight[..], a);
    FillHeap(heap, weight, parent, a);
    g := FirstForest(weight[..], parent[..], a, Contents(heap[..], a));
  }

  /** What the merging loop leaves when one tree is left. */
  ghost predicate Grown(w0: seq<int>, w: seq<int>, p: seq<int>, a: int, g: Shape, m: multiset<int>, total: int) {
    && Forest(w, p, a, 2 * a - 1, g, m, total) && Merging(w, p, a, 2 * a - 1, g) && p[2 * a - 1] == -1 && (forall x :: 1 <= x < 2 * a - 1 ==> p[x] != -1)
    && |w0| == |w| && forall x :: 1 <= x <= a ==> w[x] == w0[x]
  }

  /** The same, as one fact. */
  ghost predicate Built(w0: seq<int>, w: seq<int>, p: seq<int>, a: int, g: Shape, m: multiset<int>, total: int) {
    forall v {:trigger Grown(v, w, p, a, g, m, total)} :: v == w0 ==> Grown(v, w, p, a, g, m, total)
  }

  lemma OneTree(w0: seq<int>, h: seq<int>, w: seq<int>, p: seq<int>, a: int, nNodes: int, g: Shape, total: int)
    requires Underway(w0, h, w, p, a, 1, nNodes, g, total) && |h| > 1
    ensures nNodes == 2 * a - 1 < MAX_NODES && Built(w0, w, p, a, g, Contents(h, 1), total)
  {
    assert Growing(w0, h, w, p, a, 1, nNodes, g, total);
    OneRootLeft(w, h, p, a, nNodes, g, total);
  }

  /** The heap loops of one round: from the symbols to a single tree of 2a - 1 nodes. */
  method GrowTree(weight: array<int>, parent: array<int>, a: int) returns (ghost g: Shape, ghost m: multiset<int>)
    requires weight != parent && Leaves(weight[..], a) && parent.Length == MAX_NODES
    modifies weight, parent
    ensures Built(old(weight[..]), weight[..], parent[..], a, g, m, old(LeafSum(weight[..], a)))
  {
    ghost var w0, total := weight[..], LeafSum(weight[..], a);
    var heap := new int[MAX_SYMBOLS + 2](_ => 0);
    g := StartTree(heap, weight, parent, a);
    var nNodes;
    nNodes, g := MergeAll(heap, weight, parent, a, w0, g, total);
    m := Contents(heap[..], 1);
    OneTree(w0, heap[..], weight[..], parent[..], a, nNodes, g, total);
    assert nNodes < MAX_NODES;
  }

  /** The state of the merging loop; w0 are the weights it started from. */
  ghost predicate Growing(w0: seq<int>, h: seq<int>, w: seq<int>, p: seq<int>, a: int, nHeap: int, nNodes: int, g: Shape, total: int) {
    && 1 <= nHeap <= a && nNodes + nHeap == 2 * a && a <= MAX_SYMBOLS && Nodes(h, w, nHeap) && Ordered(h, w, nHeap)
    && Forest(w, p, a, nNodes, g, Contents(h, nHeap), total) && Merging(w, p, a, nNodes, g)
    && |w0| == |w| && forall x :: 1 <= x <= a ==> w[x] == w0[x]
  }

  /** The same, as one fact. */
  ghost predicate Underway(w0: seq<int>, h: seq<int>, w: seq<int>, p: seq<int>, a: int, nHeap: int, nNodes: int, g: Shape, total: int) {
    forall v {:trigger Growing(v, h, w, p, a, nHeap, nNodes, g, total)} :: v == w0 ==> Growing(v, h, w, p, a, nHeap, nNodes, g, total)
  }

  method MergeNext(heap: array<int>, weight: array<int>, parent: array<int>, a: int, nHeap: int, nNodes: int, ghost w0: seq<int>, ghost g: Shape, ghost total: int)
    returns (ghost g': Shape)
    requires heap != weight && heap != parent && weight != parent && nHeap > 1
    requires Underway(w0, heap[..], weight[..], parent[..], a, nHeap, nNodes, g, total)
    modifies heap, weight, parent
    ensures Underway(w0, heap[..], weight[..], parent[..], a, nHeap - 1, nNodes + 1, g', total)
  {
    assert Growing(w0, heap[..], weight[..], parent[..], a, nHeap, nNodes, g, total);
    g' := Merge(heap, weight, parent, a, nHeap, nNodes, g, total);
  }

  method MergeAll(heap: array<int>, weight: array<int>, parent: array<int>, a: int, ghost w0: seq<int>, ghost g0: Shape, ghost total: int)
    returns (nNodes: int, ghost g: Shape)
    requires heap != weight && heap != parent && weight != parent && a >= 1
    requires Underway(w0, heap[..], weight[..], parent[..], a, a, a, g0, total)
    modifies heap, weight, parent
    ensures Underway(w0, heap[..], weight[..], parent[..], a, 1, nNodes, g, total)
  {
    var nHeap;
    nNodes, nHeap, g := a, a, g0;
    while nHeap > 1
      invariant nHeap >= 1 && Underway(w0, heap[..], weight[..], parent[..], a, nHeap, nNodes, g, total)
    {
      g := MergeNext(heap, weight, parent, a, nHeap, nNodes, w0, g, total);
      nHeap, nNodes := nHeap - 1, nNodes + 1;
    }
    assert nHeap == 1;
  }

  lemma {:induction false} SameLeafSum(w: seq<int>, v: seq<int>, k: nat)
    requires k < |w| == |v| && forall x :: 1 <= x <= k ==> v[x] == w[x]
    ensures LeafSum(v, k) == LeafSum(w, k)
    decreases k
  {
    if k > 0 {
      SameLeafSum(w, v, k - 1);
    }
  }

  /** Reads the depth of every symbol off the parent links. */
  method ReadDepths(len: array<int>, parent: array<int>, a: int, maxLen: nat, ghost n: int, ghost g: Shape) returns (tooLong: bool)
    requires len != parent && a <= len.Length && Links(parent[..], a, n, g.l, g.r)
    modifies len
    ensures forall i :: 0 <= i < a ==> len[i] == Depth(parent[..], i + 1)
    ensures tooLong <==> exists i :: 0 <= i < a && len[i] > maxLen
  {
    tooLong := false;
    ghost var worst := 0;
    for i := 1 to a + 1
      invariant forall x :: 0 <= x < i - 1 ==> len[x] == Depth(parent[..], x + 1)
      invariant tooLong ==> 0 <= worst < i - 1 && len[worst] > maxLen
      invariant !tooLong ==> forall x :: 0 <= x < i - 1 ==> len[x] <= maxLen
    {
      var j := ReadDepth(parent, i, a, n, g);
      len[i - 1] := j;
      if j > maxLen { tooLong, worst := true, i - 1; }
    }
  }

  method ReadDepth(parent: array<int>, i: int, a: int, ghost n: int, ghost g: Shape) returns (j: nat)
    requires 1 <= i <= a && Links(parent[..], a, n, g.l, g.r)
    ensures j == Depth(parent[..], i)
  {
    j := 0;
    var k := i;
    while parent[k] >= 0
      invariant 1 <= k <= n && j + Depth(parent[..], k) == Depth(parent[..], i)
      decreases n - k
    {
      k := parent[k];
      j := j + 1;
    }
  }

  /** A code that is too long needs a heavy tree, so some frequency is at least 3. */
  lemma TooLongIsHeavy(w: seq<int>, p: seq<int>, a: int, n: int, g: Shape, m: multiset<int>, i: int)
    requires 2 <= a <= MAX_SYMBOLS && |w| == MAX_NODES && 1 <= i <= a
    requires Forest(w, p, a, n, g, m, LeafSum(w, a)) && p[n] == -1
    requires forall x :: 1 <= x < n ==> p[x] != -1
    requires Depth(p, i) >= 18
    ensures exists x :: 1 <= x <= a && Freq(w, x) >= 3
  {
    DepthBelowHeight(w, p, a, n, g.l, g.r, i);
    LastRootSum(w, p, n, n - 1);
    assert n in m;
    FibMono(18, Height(w, n));
    FibValues();
    if forall x :: 1 <= x <= a ==> Freq(w, x) <= 2 {
      LightLeaves(w, a);
    }
  }

  /** The scaling loop: no frequency grows or vanishes, and those of at least 3 shrink. */
  method Scale(weight: array<int>, a: int)
    requires weight.Length == MAX_NODES && Leaves(weight[..], a)
    modifies weight
    ensures Leaves(weight[..], a) && forall x :: 1 <= x <= a ==> weight[x] == Scaled(old(weight[x]))
    ensures LeafSum(weight[..], a) <= old(LeafSum(weight[..], a))
    ensures old(exists x :: 1 <= x <= a && Freq(weight[..], x) >= 3) ==> LeafSum(weight[..], a) < old(LeafSum(weight[..], a))
  {
    ghost var w := weight[..];
    for i := 1 to a + 1
      invariant forall x :: 1 <= x < i ==> weight[x] == Scaled(w[x])
      invariant forall x :: 0 <= x < |w| && !(1 <= x < i) ==> weight[x] == w[x]
    {
      var j := weight[i] / 256;
      j := 1 + j / 2;
      weight[i] := j * 256;
    }
    ScaledSum(w, weight[..], a);
    LeafSumNat(weight[..], a);
    if old(exists x :: 1 <= x <= a && Freq(weight[..], x) >= 3) {
      ghost var x :| 1 <= x <= a && Freq(w, x) >= 3;
      ScaledLess(w, weight[..], a, x);
    }
  }

  lemma {:induction false} LeafSumNat(w: seq<int>, k: nat)
    requires k < |w| && forall x :: 1 <= x <= k ==> 0 <= w[x]
    ensures 0 <= LeafSum(w, k)
    decreases k
  {
    if k > 0 {
      LeafSumNat(w, k - 1);
    }
  }

  function Scaled(w: int): int {
    (1 + w / 256 / 2) * 256
  }

  lemma {:induction false} ScaledSum(w: seq<int>, v: seq<int>, k: nat)
    requires k < |w| == |v| && forall x :: 1 <= x <= k ==> v[x] == Scaled(w[x]) && w[x] / 256 >= 1
    ensures LeafSum(v, k) <= LeafSum(w, k)
    decreases k
  {
    if k > 0 {
      ScaledSum(w, v, k - 1);
    }
  }

  lemma {:induction false} ScaledLess(w: seq<int>, v: seq<int>, k: nat, x: int)
    requires k < |w| == |v| && forall x :: 1 <= x <= k ==> v[x] == Scaled(w[x]) && w[x] / 256 >= 1
    requires 1 <= x <= k && Freq(w, x) >= 3
    ensures LeafSum(v, k) < LeafSum(w, k)
    decreases k
  {
    if x < k {
      ScaledLess(w, v, k - 1, x);
    } else {
      ScaledSum(w, v, k - 1);
    }
  }

  function Sum(freq: seq<nat>): nat {
    if freq == [] then 0 else Sum(freq[..|freq| - 1]) + freq[|freq| - 1]
  }

  /** A frequency of 0 counts as 1. */
  function Weighed(freq: seq<nat>): (w: seq<nat>)
    ensures |w| == |freq| && forall i :: 0 <= i < |freq| ==> w[i] == if freq[i] == 0 then 1 else freq[i]
  {
    seq(|freq|, i requires 0 <= i < |freq| => if freq[i] == 0 then 1 else freq[i])
  }

  method SetWeights(weight: array<int>, freq: seq<nat>)
    requires weight.Length == MAX_NODES && 2 <= |freq| <= MAX_SYMBOLS && Sum(Weighed(freq)) <= MAX_TOTAL
    requires forall x :: 0 <= x < weight.Length ==> weight[x] == 0
    modifies weight
    ensures Leaves(weight[..], |freq|) && Holds(weight[..], Weighed(freq))
  {
    for i := 0 to |freq|
      invariant forall x :: 1 <= x <= i ==> weight[x] == (if freq[x - 1] == 0 then 1 else freq[x - 1]) * 256
      invariant forall x :: 0 <= x < weight.Length && !(1 <= x <= i) ==> weight[x] == 0
    {
      weight[i + 1] := (if freq[i] == 0 then 1 else freq[i]) * 256;
    }
    ghost var w := Weighed(freq);
    LeafSumIs(weight[..], w, |freq|);
    assert w[..|freq|] == w;
    LeafSumNat(weight[..], |freq|);
    forall i | 0 <= i < |freq|
      ensures w[i] <= Sum(w)
    {
      PartOfSum(w, i);
    }
  }

  lemma {:induction false} LeafSumIs(w: seq<int>, freq: seq<nat>, k: nat)
    requires k <= |freq| && k < |w| && forall x :: 1 <= x <= k ==> w[x] == freq[x - 1] * 256
    ensures LeafSum(w, k) == Sum(freq[..k])
    decreases k
  {
    if k > 0 {
      LeafSumIs(w, freq, k - 1);
      assert freq[..k][..k - 1] == freq[..k - 1];
    }
  }

  /** Counting zeros as ones adds at most one for each symbol. */
  lemma {:induction false} WeighedSum(freq: seq<nat>)
    ensures Sum(Weighed(freq)) <= Sum(freq) + |freq|
    decreases |freq|
  {
    if freq != [] {
      WeighedSum(freq[..|freq| - 1]);
      assert Weighed(freq)[..|freq| - 1] == Weighed(freq[..|freq| - 1]);
    }
  }

  lemma {:induction false} PartOfSum(freq: seq<nat>, i: nat)
    requires i < |freq|
    ensures freq[i] <= Sum(freq)
    decreases |freq|
  {
    if i < |freq| - 1 {
      PartOfSum(freq[..|freq| - 1], i);
    }
  }

  /** The weights of the symbols are the frequencies f, moved past the heights. */
  ghost predicate Holds(w: seq<int>, f: seq<nat>) {
    |f| < |w| && forall i :: 0 <= i < |f| ==> w[i + 1] == f[i] * 256
  }

  /** What the scaling loop does to the frequencies. */
  function Halved(f: seq<nat>): (h: seq<nat>)
    ensures |h| == |f| && forall i :: 0 <= i < |f| ==> h[i] == 1 + f[i] / 2
  {
    seq(|f|, i requires 0 <= i < |f| => 1 + f[i] / 2)
  }

  function HalvedTimes(f: seq<nat>, k: nat): (h: seq<nat>)
    ensures |h| == |f|
  {
    if k == 0 then f else Halved(HalvedTimes(f, k - 1))
  }

  /** Scaling keeps the order of the frequencies. */
  lemma {:induction false} HalvedOrder(f: seq<nat>, k: nat, i: nat, j: nat)
    requires i < |f| && j < |f| && f[i] <= f[j]
    ensures HalvedTimes(f, k)[i] <= HalvedTimes(f, k)[j]
    decreases k
  {
    if k > 0 {
      HalvedOrder(f, k - 1, i, j);
    }
  }

  lemma ScaledHolds(w: seq<int>, v: seq<int>, f: seq<nat>)
    requires Holds(w, f) && |v| == |w| && forall x :: 1 <= x <= |f| ==> v[x] == Scaled(w[x])
    ensures Holds(v, Halved(f))
  {
    forall i | 0 <= i < |f|
      ensures v[i + 1] == Halved(f)[i] * 256
    {
      ScaledOne(f[i]);
    }
  }

  lemma ScaledOne(f: nat)
    ensures Scaled(f * 256) == (1 + f / 2) * 256
  {
  }

  /** Some optimal code for the frequencies f has a code word that is too long. */
  ghost predicate Overlong(f: seq<nat>, maxLen: nat) {
    exists o :: Optimal(f, o) && exists i :: 0 <= i < |o| && o[i] > maxLen
  }

  function Freqs(w: seq<int>): (f: seq<nat>)
    requires forall x :: 0 <= x < |w| ==> 0 <= w[x]
    ensures |f| == |w| && forall x :: 0 <= x < |w| ==> f[x] == Freq(w, x)
  {
    seq(|w|, x requires 0 <= x < |w| => w[x] / 256)
  }

  /** The depths of a grown tree are an optimal code for the frequencies it started from. */
  lemma GrownOptimal(w0: seq<int>, w: seq<int>, p: seq<int>, a: int, g: Shape, m: multiset<int>, total: int, f: seq<nat>, lens: seq<int>)
    requires Grown(w0, w, p, a, g, m, total) && Holds(w0, f) && |f| == |lens| == a
    requires forall i :: 0 <= i < a ==> lens[i] == Depth(p, i + 1)
    ensures Optimal(f, lens)
  {
    TreeOptimal(Freqs(w), p, a, 2 * a - 1, g.l, g.r, f, lens);
  }

  lemma TooLong(w0: seq<int>, w: seq<int>, p: seq<int>, a: int, g: Shape, m: multiset<int>, total: int, f: seq<nat>, lens: seq<int>, maxLen: nat, i: int)
    requires 2 <= a <= MAX_SYMBOLS && maxLen >= 17 && Grown(w0, w, p, a, g, m, total) && total == LeafSum(w, a)
    requires Holds(w0, f) && |f| == |lens| == a && forall x :: 0 <= x < a ==> lens[x] == Depth(p, x + 1)
    requires 0 <= i < a && lens[i] > maxLen
    ensures Overlong(f, maxLen) && exists x :: 1 <= x <= a && Freq(w, x) >= 3
  {
    GrownOptimal(w0, w, p, a, g, m, total, f, lens);
    TooLongIsHeavy(w, p, a, 2 * a - 1, g, m, i + 1);
  }

  lemma ShortEnough(w0: seq<int>, w: seq<int>, p: seq<int>, a: int, g: Shape, m: multiset<int>, total: int, f: seq<nat>, lens: seq<int>, maxLen: nat)
    requires 2 <= a && Grown(w0, w, p, a, g, m, total)
    requires Holds(w0, f) && |f| == |lens| == a && forall x :: 0 <= x < a ==> lens[x] == Depth(p, x + 1) && lens[x] <= maxLen
    ensures Canonical.Lengths(lens, maxLen) && Canonical.Kraft(lens, maxLen) == Pow2(maxLen) && Optimal(f, lens)
  {
    GrownOptimal(w0, w, p, a, g, m, total, f, lens);
    Complete(lens, p, a, 2 * a - 1, g, maxLen);
  }

  /** The frequencies were halved k times, each time because the code was too long. */
  ghost predicate Shrunk(f: seq<nat>, k: nat, maxLen: nat) {
    forall j :: 0 <= j < k ==> Overlong(HalvedTimes(f, j), maxLen)
  }

  /** What BZ2_hbMakeCodeLengths promises of lengths for the frequencies freq. */
  ghost predicate Cheap(freq: seq<nat>, lens: seq<int>, maxLen: nat) {
    exists k: nat :: Optimal(HalvedTimes(Weighed(freq), k), lens) && Shrunk(Weighed(freq), k, maxLen)
  }

  /** When an optimal code is short enough, the lengths are one: otherwise some optimal code is too long. */
  lemma CheapOrOverlong(freq: seq<nat>, lens: seq<int>, maxLen: nat)
    requires Cheap(freq, lens, maxLen)
    ensures Optimal(Weighed(freq), lens) || Overlong(Weighed(freq), maxLen)
  {
    var k: nat :| Optimal(HalvedTimes(Weighed(freq), k), lens) && Shrunk(Weighed(freq), k, maxLen);
    if k > 0 {
      assert HalvedTimes(Weighed(freq), 0) == Weighed(freq);
    }
  }

  /** A symbol that gets the longer code is not heavier by so much that it still is after the halvings. */
  lemma LongerIsLighter(freq: seq<nat>, lens: seq<int>, maxLen: nat, i: nat, j: nat) returns (k: nat)
    requires Cheap(freq, lens, maxLen) && Feasible(lens, maxLen) && |lens| == |freq| && i < |freq| && j < |freq| && lens[i] > lens[j]
    ensures HalvedTimes(Weighed(freq), k)[i] <= HalvedTimes(Weighed(freq), k)[j]
    ensures Optimal(HalvedTimes(Weighed(freq), k), lens) && Shrunk(Weighed(freq), k, maxLen)
  {
    k :| Optimal(HalvedTimes(Weighed(freq), k), lens) && Shrunk(Weighed(freq), k, maxLen);
    if HalvedTimes(Weighed(freq), k)[i] > HalvedTimes(Weighed(freq), k)[j] {
      HeavierNotLonger(HalvedTimes(Weighed(freq), k), lens, maxLen, i, j);
    }
  }

  /**
   * BZ2_hbMakeCodeLengths always ends, with a complete code: every length is in 1..maxLen and the Kraft sum is exactly 1.
   * No prefix code is cheaper for the frequencies of the last round, and these are the given ones unless an optimal
   * code for those is too long.
   */
  method MakeCodeLengths(len: array<int>, freq: seq<nat>, maxLen: nat) returns (ghost rounds: nat)
    requires 2 <= |freq| <= MAX_SYMBOLS && |freq| <= len.Length && Sum(Weighed(freq)) <= MAX_TOTAL
    requires 17 <= maxLen <= 20
    modifies len
    ensures Canonical.Lengths(len[..|freq|], maxLen)
    ensures Canonical.Kraft(len[..|freq|], maxLen) == Pow2(maxLen)
    ensures Optimal(HalvedTimes(Weighed(freq), rounds), len[..|freq|]) && Shrunk(Weighed(freq), rounds, maxLen)
  {
    var a := |freq|;
    var weight := new int[MAX_NODES](_ => 0);
    var parent := new int[MAX_NODES](_ => 0);
    SetWeights(weight, freq);
    var tooLong := true;
    rounds := 0;
    while tooLong
      invariant Leaves(weight[..], a) && Shrunk(Weighed(freq), rounds, maxLen)
      invariant tooLong ==> Holds(weight[..], HalvedTimes(Weighed(freq), rounds))
      invariant !tooLong ==> Tried(HalvedTimes(Weighed(freq), rounds), len[..a], maxLen, false)
      decreases LeafSum(weight[..], a), tooLong
    {
      tooLong := Round(len, weight, parent, a, maxLen, HalvedTimes(Weighed(freq), rounds));
      if tooLong { rounds := rounds + 1; }
    }
  }

  lemma SameLeaves(w0: seq<int>, w: seq<int>, p: seq<int>, a: int, g: Shape, m: multiset<int>, total: int, f: seq<nat>)
    requires Leaves(w0, a) && Built(w0, w, p, a, g, m, total) && total == LeafSum(w0, a) && Holds(w0, f) && |f| == a
    ensures Leaves(w, a) && LeafSum(w, a) == total && Holds(w, f)
  {
    assert Grown(w0, w, p, a, g, m, total);
    SameLeafSum(w0, w, a);
  }

  /** The outcome of one attempt for the frequencies f. */
  ghost predicate Tried(f: seq<nat>, lens: seq<int>, maxLen: nat, tooLong: bool) {
    if tooLong then Overlong(f, maxLen)
    else Canonical.Lengths(lens, maxLen) && Canonical.Kraft(lens, maxLen) == Pow2(maxLen) && Optimal(f, lens)
  }

  /** A tree and its depths. */
  method Attempt(len: array<int>, weight: array<int>, parent: array<int>, a: int, maxLen: nat, ghost f: seq<nat>) returns (tooLong: bool)
    requires len != weight && len != parent && weight != parent && a <= len.Length && parent.Length == MAX_NODES
    requires weight.Length == MAX_NODES && Leaves(weight[..], a) && 17 <= maxLen <= 20 && |f| == a && Holds(weight[..], f)
    modifies len, weight, parent
    ensures Leaves(weight[..], a) && Holds(weight[..], f) && LeafSum(weight[..], a) == old(LeafSum(weight[..], a))
    ensures Tried(f, len[..a], maxLen, tooLong)
    ensures tooLong ==> exists x :: 1 <= x <= a && Freq(weight[..], x) >= 3
  {
    ghost var w, total := weight[..], LeafSum(weight[..], a);
    ghost var g, m := GrowTree(weight, parent, a);
    ghost var v := weight[..];
    SameLeaves(w, v, parent[..], a, g, m, total, f);
    tooLong := Assess(len, parent, a, maxLen, w, v, g, m, total, f);
  }

  method Assess(len: array<int>, parent: array<int>, a: int, maxLen: nat,
                ghost w0: seq<int>, ghost w: seq<int>, ghost g: Shape, ghost m: multiset<int>, ghost total: int, ghost f: seq<nat>)
    returns (tooLong: bool)
    requires len != parent && 2 <= a <= len.Length && a <= MAX_SYMBOLS && maxLen >= 17 && a < |w| && total == LeafSum(w, a)
    requires Built(w0, w, parent[..], a, g, m, total) && Holds(w0, f) && |f| == a
    modifies len
    ensures Tried(f, len[..a], maxLen, tooLong)
    ensures tooLong ==> exists x :: 1 <= x <= a && Freq(w, x) >= 3
  {
    BuiltLinks(w0, w, parent[..], a, g, m, total);
    tooLong := ReadDepths(len, parent, a, maxLen, 2 * a - 1, g);
    ReadOff(len[..], len[..a], parent[..], a, maxLen, tooLong);
    Judged(w0, w, parent[..], a, g, m, total, f, len[..a], maxLen, tooLong);
  }

  lemma BuiltLinks(w0: seq<int>, w: seq<int>, p: seq<int>, a: int, g: Shape, m: multiset<int>, total: int)
    requires Built(w0, w, p, a, g, m, total)
    ensures Links(p, a, 2 * a - 1, g.l, g.r)
  {
    assert Grown(w0, w, p, a, g, m, total);
  }

  ghost predicate DepthsOf(lens: seq<int>, p: seq<int>, a: int, maxLen: nat, tooLong: bool) {
    && |lens| == a < |p| && (forall x :: 0 <= x < a ==> lens[x] == Depth(p, x + 1))
    && (tooLong <==> exists i :: 0 <= i < a && lens[i] > maxLen)
  }

  lemma ReadOff(len: seq<int>, lens: seq<int>, p: seq<int>, a: int, maxLen: nat, tooLong: bool)
    requires 0 <= a <= |len| && a < |p| && lens == len[..a] && (forall i :: 0 <= i < a ==> len[i] == Depth(p, i + 1))
    requires tooLong <==> exists i :: 0 <= i < a && len[i] > maxLen
    ensures DepthsOf(lens, p, a, maxLen, tooLong)
  {
    if tooLong {
      var i :| 0 <= i < a && len[i] > maxLen;
      assert lens[i] > maxLen;
    }
  }

  lemma Judged(w0: seq<int>, w: seq<int>, p: seq<int>, a: int, g: Shape, m: multiset<int>, total: int, f: seq<nat>, lens: seq<int>, maxLen: nat, tooLong: bool)
    requires 2 <= a <= MAX_SYMBOLS && maxLen >= 17 && a < |w| && total == LeafSum(w, a)
    requires Built(w0, w, p, a, g, m, total) && Holds(w0, f) && |f| == a && DepthsOf(lens, p, a, maxLen, tooLong)
    ensures Tried(f, lens, maxLen, tooLong)
    ensures tooLong ==> exists x :: 1 <= x <= a && Freq(w, x) >= 3
  {
    assert Grown(w0, w, p, a, g, m, total);
    if tooLong {
      var i :| 0 <= i < a && lens[i] > maxLen;
      TooLong(w0, w, p, a, g, m, total, f, lens, maxLen, i);
    } else {
      ShortEnough(w0, w, p, a, g, m, total, f, lens, maxLen);
    }
  }

  /** One round: an attempt and, if some depth is too large, smaller frequencies. */
  method Round(len: array<int>, weight: array<int>, parent: array<int>, a: int, maxLen: nat, ghost f: seq<nat>) returns (tooLong: bool)
    requires len != weight && len != parent && weight != parent && a <= len.Length && parent.Length == MAX_NODES
    requires weight.Length == MAX_NODES && Leaves(weight[..], a) && 17 <= maxLen <= 20 && |f| == a && Holds(weight[..], f)
    modifies len, weight, parent
    ensures Leaves(weight[..], a) && Tried(f, len[..a], maxLen, tooLong)
    ensures if tooLong then LeafSum(weight[..], a) < old(LeafSum(weight[..], a)) else LeafSum(weight[..], a) <= old(LeafSum(weight[..], a))
    ensures tooLong ==> Holds(weight[..], Halved(f))
  {
    tooLong := Attempt(len, weight, parent, a, maxLen, f);
    if tooLong {
      ghost var v := weight[..];
      Scale(weight, a);
      ScaledHolds(v, weight[..], f);
    }
  }

  lemma Complete(lens: seq<int>, p: seq<int>, a: int, n: int, g: Shape, maxLen: nat)
    requires 2 <= a == |lens| && n == 2 * a - 1 && Links(p, a, n, g.l, g.r) && p[n] == -1
    requires forall x :: 1 <= x < n ==> p[x] != -1
    requires forall i :: 0 <= i < a ==> lens[i] == Depth(p, i + 1)
    requires forall i :: 0 <= i < a ==> lens[i] <= maxLen
    ensures Canonical.Lengths(lens, maxLen) && Canonical.Kraft(lens, maxLen) == Pow2(maxLen)
  {
    forall i | 0 <= i < a
      ensures 1 <= lens[i]
    {
      assert p[i + 1] != -1;
    }
    KraftExact(p, a, n, g.l, g.r, maxLen, lens);
  }
}
