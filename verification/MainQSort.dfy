/** mainGtU, mainSimpleSort and mainQSort3: sorting a small bucket of rotations
    by direct comparison, helped by the quadrant cache. */
module MainQSort {
  import opened Permutations
  import opened Rotations
  import opened QuickSort

  const OVERSHOOT := 34
  const SMALL_THRESH := 20
  const DEPTH_THRESH := 14
  const STACK_SIZE := 100

  // ---- What the sorter may rely on ----

  /** The block is followed by a copy of its first bytes. */
  ghost predicate Mirrored(block: seq<byte>, b: seq<byte>) {
    && OVERSHOOT < |b| && |block| == |b| + OVERSHOOT && block[..|b|] == b
    && forall i :: 0 <= i < OVERSHOOT ==> block[|b| + i] == b[i]
  }

  /** Among rotations with the same first byte, a smaller quadrant value means
      "does not come after"; equal values mean nothing. */
  ghost predicate QuadrantOk(b: seq<byte>, q: seq<int>) {
    && OVERSHOOT < |b| && |q| == |b| + OVERSHOOT
    && (forall i :: 0 <= i < OVERSHOOT ==> q[|b| + i] == q[i])
    && forall x, y {:trigger RotLe(b, x, y)} :: 0 <= x < |b| && 0 <= y < |b| && b[x] == b[y] && q[x] < q[y] ==> RotLe(b, x, y)
  }

  /** A rank per rotation that orders them as their bytes do. */
  ghost predicate Ranked(b: seq<byte>, rank: seq<int>) {
    && |rank| == |b|
    && forall x, y {:trigger RotLe(b, x, y)} :: 0 <= x < |b| && 0 <= y < |b| ==> (RotLe(b, x, y) <==> rank[x] <= rank[y])
  }

  ghost function Before(b: seq<byte>, x: int): set<int>
    requires 0 <= x < |b|
  {
    set y | 0 <= y < |b| && Cmp(b, y, x, |b|) < 0
  }

  ghost function Rank(b: seq<byte>): (rank: seq<int>)
    ensures |rank| == |b|
  {
    seq(|b|, x requires 0 <= x < |b| => |Before(b, x)|)
  }

  lemma BeforeOrder(b: seq<byte>, x: int, y: int)
    requires 0 <= x < |b| && 0 <= y < |b| && RotLe(b, x, y)
    ensures |Before(b, x)| <= |Before(b, y)|
    ensures |Before(b, x)| == |Before(b, y)| ==> Cmp(b, x, y, |b|) == 0
  {
    forall z | z in Before(b, x)
      ensures z in Before(b, y)
    {
      CmpTrans(b, z, x, y, |b|);
    }
    CardSubset(Before(b, x), Before(b, y));
    CmpRefl(b, x, |b|);
    assert x !in Before(b, x);
    assert Cmp(b, x, y, |b|) < 0 ==> x in Before(b, y);
  }

  lemma RankOk(b: seq<byte>)
    ensures Ranked(b, Rank(b))
  {
    forall x, y | 0 <= x < |b| && 0 <= y < |b|
      ensures RotLe(b, x, y) <==> Rank(b)[x] <= Rank(b)[y]
    {
      CmpAnti(b, x, y, |b|);
      if RotLe(b, x, y) { BeforeOrder(b, x, y); } else { BeforeOrder(b, y, x); }
    }
  }

  // ---- Comparing two rotations ----

  function Wrap(n: nat, x: int): int {
    if x < n then x else x - n
  }

  /** A comparison decided m equal bytes in decides the rotations. */
  lemma Decided(b: seq<byte>, x: int, y: int, m: nat)
    requires 0 <= x < |b| && 0 <= y < |b| && Cmp(b, x, y, m) == 0
    requires Cmp(b, Advance(|b|, x, m), Advance(|b|, y, m), |b|) <= 0
    ensures RotLe(b, x, y)
  {
    CmpSplit(b, x, y, m, |b|);
    CmpPrefix(b, x, y, |b|, m + |b|);
  }

  /** m bytes have compared equal and the scan stands at i1 and i2. */
  ghost predicate Tied(b: seq<byte>, x: int, y: int, i1: int, i2: int, m: nat) {
    && 0 <= x < |b| && 0 <= y < |b|
    && 0 <= i1 <= |b| + OVERSHOOT && 0 <= i2 <= |b| + OVERSHOOT && OVERSHOOT < |b|
    && Wrap(|b|, i1) == Advance(|b|, x, m) && Wrap(|b|, i2) == Advance(|b|, y, m)
    && Cmp(b, x, y, m) == 0
  }

  lemma TiedStep(b: seq<byte>, block: seq<byte>, x: int, y: int, i1: int, i2: int, m: nat)
    requires Mirrored(block, b) && Tied(b, x, y, i1, i2, m) && i1 < |block| && i2 < |block|
    ensures block[i1] == b[Wrap(|b|, i1)] && block[i2] == b[Wrap(|b|, i2)]
    ensures block[i1] == block[i2] ==> Tied(b, x, y, i1 + 1, i2 + 1, m + 1)
    ensures block[i1] > block[i2] ==> RotLe(b, y, x)
    ensures block[i1] < block[i2] ==> RotLe(b, x, y)
  {
    var n := |b|;
    var u, v := Wrap(n, i1), Wrap(n, i2);
    assert block[i1] == b[u] by { if i1 < n { assert block[i1] == block[..n][i1]; } }
    assert block[i2] == b[v] by { if i2 < n { assert block[i2] == block[..n][i2]; } }
    if b[u] == b[v] {
      AdvanceAdd(n, x, m, 1);
      AdvanceAdd(n, y, m, 1);
      assert Advance(n, u, 1) == Advance(n, Next(n, u), 0) == Next(n, u);
      assert Advance(n, v, 1) == Advance(n, Next(n, v), 0) == Next(n, v);
      CmpSplit(b, x, y, m, 1);
      assert Cmp(b, u, v, 1) == Cmp(b, Next(n, u), Next(n, v), 0);
    } else if b[u] < b[v] {
      Decided(b, x, y, m);
    } else {
      CmpAnti(b, x, y, m);
      Decided(b, y, x, m);
    }
  }

  lemma TiedQuadrant(b: seq<byte>, q: seq<int>, x: int, y: int, i1: int, i2: int, m: nat)
    requires QuadrantOk(b, q) && Tied(b, x, y, i1, i2, m) && i1 < |q| && i2 < |q|
    requires b[Wrap(|b|, i1)] == b[Wrap(|b|, i2)]
    ensures q[i1] > q[i2] ==> RotLe(b, y, x)
    ensures q[i1] < q[i2] ==> RotLe(b, x, y)
  {
    var u, v := Wrap(|b|, i1), Wrap(|b|, i2);
    assert q[i1] == q[u] && q[i2] == q[v];
    if q[u] < q[v] {
      assert RotLe(b, u, v);
      Decided(b, x, y, m);
    } else if q[u] > q[v] {
      assert RotLe(b, v, u);
      CmpAnti(b, x, y, m);
      Decided(b, y, x, m);
    }
  }

  datatype Verdict = Less | Greater | Undecided

  ghost predicate Sound(b: seq<byte>, x: int, y: int, v: Verdict)
    requires 0 <= x < |b| && 0 <= y < |b|
  {
    (v.Greater? ==> RotLe(b, y, x)) && (v.Less? ==> RotLe(b, x, y))
  }

  /** The twelve leading byte comparisons. */
  method LeadingBytes(block: array<byte>, s1: int, s2: int, ghost b: seq<byte>) returns (v: Verdict)
    requires Mirrored(block[..], b)
    requires 0 <= s1 && s1 + 12 <= |b| + OVERSHOOT && 0 <= s2 && s2 + 12 <= |b| + OVERSHOOT
    ensures Sound(b, Wrap(|b|, s1), Wrap(|b|, s2), v)
    ensures v.Undecided? ==> Tied(b, Wrap(|b|, s1), Wrap(|b|, s2), s1 + 12, s2 + 12, 12)
  {
    ghost var x, y := Wrap(|b|, s1), Wrap(|b|, s2);
    for t := 0 to 12
      invariant Tied(b, x, y, s1 + t, s2 + t, t)
    {
      TiedStep(b, block[..], x, y, s1 + t, s2 + t, t);
      var c1, c2 := block[s1 + t], block[s2 + t];
      if c1 != c2 { return if c1 > c2 then Greater else Less; }
    }
    v := Undecided;
  }

  /** One comparison of byte and quadrant. */
  method OnePair(block: array<byte>, quadrant: array<int>, i1: int, i2: int,
                 ghost b: seq<byte>, ghost x: int, ghost y: int, ghost m: nat)
    returns (v: Verdict)
    requires Mirrored(block[..], b) && QuadrantOk(b, quadrant[..])
    requires i1 < |b| + OVERSHOOT && i2 < |b| + OVERSHOOT && Tied(b, x, y, i1, i2, m)
    ensures Sound(b, x, y, v)
    ensures v.Undecided? ==> Tied(b, x, y, i1 + 1, i2 + 1, m + 1)
  {
    TiedStep(b, block[..], x, y, i1, i2, m);
    var c1, c2 := block[i1], block[i2];
    if c1 != c2 { return if c1 > c2 then Greater else Less; }
    TiedQuadrant(b, quadrant[..], x, y, i1, i2, m);
    var q1, q2 := quadrant[i1], quadrant[i2];
    v := if q1 == q2 then Undecided else if q1 > q2 then Greater else Less;
  }

  /** Eight comparisons of byte and quadrant. */
  method EightPairs(block: array<byte>, quadrant: array<int>, s1: int, s2: int,
                    ghost b: seq<byte>, ghost x: int, ghost y: int, ghost m: nat)
    returns (v: Verdict)
    requires Mirrored(block[..], b) && QuadrantOk(b, quadrant[..])
    requires s1 + 8 <= |b| + OVERSHOOT && s2 + 8 <= |b| + OVERSHOOT
    requires Tied(b, x, y, s1, s2, m)
    ensures Sound(b, x, y, v)
    ensures v.Undecided? ==> Tied(b, x, y, s1 + 8, s2 + 8, m + 8)
  {
    for t := 0 to 8
      invariant Tied(b, x, y, s1 + t, s2 + t, m + t)
    {
      v := OnePair(block, quadrant, s1 + t, s2 + t, b, x, y, m + t);
      if !v.Undecided? { return; }
    }
    v := Undecided;
  }

  /** One round of eight pairs, then the wrap past the end of the block. */
  method Round(block: array<byte>, quadrant: array<int>, n: int, i1: int, i2: int,
               ghost b: seq<byte>, ghost x: int, ghost y: int, ghost m: nat)
    returns (v: Verdict, j1: int, j2: int)
    requires n == |b| && Mirrored(block[..], b) && QuadrantOk(b, quadrant[..])
    requires i1 <= n + 26 && i2 <= n + 26 && Tied(b, x, y, i1, i2, m)
    ensures Sound(b, x, y, v)
    ensures v.Undecided? ==> j1 <= n + 26 && j2 <= n + 26 && Tied(b, x, y, j1, j2, m + 8)
  {
    v := EightPairs(block, quadrant, i1, i2, b, x, y, m);
    j1, j2 := i1 + 8, i2 + 8;
    if j1 >= n { j1 := j1 - n; }
    if j2 >= n { j2 := j2 - n; }
  }

  /** Rounds until a difference shows or all bytes have compared equal. */
  method Rounds(block: array<byte>, quadrant: array<int>, n: int, i1_0: int, i2_0: int, budget0: int,
                ghost b: seq<byte>, ghost x: int, ghost y: int)
    returns (v: Verdict, budget: int)
    requires n == |b| && Mirrored(block[..], b) && QuadrantOk(b, quadrant[..])
    requires i1_0 <= n + 26 && i2_0 <= n + 26 && Tied(b, x, y, i1_0, i2_0, 12)
    ensures Sound(b, x, y, v)
    ensures v.Undecided? ==> Cmp(b, x, y, n) == 0
  {
    budget := budget0;
    var i1, i2 := i1_0, i2_0;
    var k := n + 8;
    ghost var m := 12;
    while k >= 0
      invariant i1 <= n + 26 && i2 <= n + 26 && m == n + 20 - k
      invariant Tied(b, x, y, i1, i2, m)
    {
      v, i1, i2 := Round(block, quadrant, n, i1, i2, b, x, y, m);
      if v != Undecided { return; }
      m := m + 8;
      k := k - 8;
      budget := budget - 1;
    }
    CmpPrefix(b, x, y, n, m);
    v := Undecided;
  }

  /** Does the rotation at s1 come after the one at s2? True answers mean "not
      before", false ones "not after". */
  method GtU(s1: int, s2: int, block: array<byte>, quadrant: array<int>, n: int, budget0: int, ghost b: seq<byte>)
    returns (gt: bool, budget: int)
    requires n == |b| && Mirrored(block[..], b) && QuadrantOk(b, quadrant[..])
    requires 0 <= s1 < n + 15 && 0 <= s2 < n + 15
    ensures gt ==> RotLe(b, Wrap(n, s2), Wrap(n, s1))
    ensures !gt ==> RotLe(b, Wrap(n, s1), Wrap(n, s2))
  {
    budget := budget0;
    var v := LeadingBytes(block, s1, s2, b);
    if v == Undecided {
      v, budget := Rounds(block, quadrant, n, s1 + 12, s2 + 12, budget, b, Wrap(n, s1), Wrap(n, s2));
    }
    gt := v == Greater;
  }

  // ---- Insertion and Shell sort ----

  /** The entries of [lo, hi] agree on their first d bytes. */
  ghost predicate Agree(b: seq<byte>, s: seq<int>, lo: int, hi: int, d: nat) {
    && 0 <= lo && hi < |s|
    && (forall x :: lo <= x <= hi ==> 0 <= s[x] < |b|)
    && forall x, y :: lo <= x <= hi && lo <= y <= hi ==> Cmp(b, s[x], s[y], d) == 0
  }

  lemma AgreePermutes(b: seq<byte>, s: seq<int>, t: seq<int>, lo: int, hi: int, d: nat)
    requires Agree(b, s, lo, hi, d) && lo <= hi + 1 && PermutesRange(s, t, lo, hi + 1)
    ensures Agree(b, t, lo, hi, d)
  {
    forall x | lo <= x <= hi
      ensures 0 <= t[x] < |b|
    {
      var x' := PermutesFrom(s, t, lo, hi + 1, x);
    }
    forall x, y | lo <= x <= hi && lo <= y <= hi
      ensures Cmp(b, t[x], t[y], d) == 0
    {
      var x' := PermutesFrom(s, t, lo, hi + 1, x);
      var y' := PermutesFrom(s, t, lo, hi + 1, y);
    }
  }

  /** What the sorter of a bucket is given: block, cache and ranks that fit together. */
  ghost predicate Setting(block: array<byte>, quadrant: array<int>, n: int, b: seq<byte>, rank: seq<int>)
    reads block, quadrant
  {
    n == |b| <= MAX_BLOCK && Mirrored(block[..], b) && QuadrantOk(b, quadrant[..]) && Ranked(b, rank)
  }

  /** Compare two entries that agree on their first d bytes. */
  method EntryGt(p: int, v: int, d: int, block: array<byte>, quadrant: array<int>, n: int, budget0: int,
                 ghost b: seq<byte>, ghost rank: seq<int>)
    returns (gt: bool, budget: int)
    requires Setting(block, quadrant, n, b, rank) && 0 <= d <= 15
    requires 0 <= p < n && 0 <= v < n && Cmp(b, p, v, d) == 0
    ensures gt ==> KeyLe(rank, v, p)
    ensures !gt ==> KeyLe(rank, p, v)
  {
    gt, budget := GtU(p + d, v + d, block, quadrant, n, budget0, b);
    AdvanceIs(n, p, d);
    AdvanceIs(n, v, d);
    CmpAnti(b, p, v, d);
    if gt { Decided(b, v, p, d); } else { Decided(b, p, v, d); }
  }

  /** Entries s with v, taken from place i, moved down to the gap at j; `u` is
      the array with v put into the gap. */
  ghost predicate Room(ptr: array<int>, s: seq<int>, u: seq<int>, v: int, lo: int, j: int, i: int, hi: int, h: int, rank: seq<int>)
    reads ptr
  {
    && 0 <= lo <= j <= i <= hi < ptr.Length == |s|
    && PermutesRange(s, u, lo, hi + 1) && u[j] == v
    && (forall x {:trigger ptr[x]} {:trigger u[x]} :: 0 <= x < ptr.Length && x != j ==> ptr[x] == u[x])
    && (forall x {:trigger ptr[x]} :: 0 <= x < j ==> ptr[x] == s[x])
    && (h == 1 ==> forall x {:trigger ptr[x]} :: j < x <= i ==> ptr[x] == s[x - 1])
    && (h == 1 ==> forall x :: j <= x < i ==> KeyLe(rank, v, s[x]))
  }

  method Shift(ptr: array<int>, j: int, h: int, ghost s: seq<int>, ghost u0: seq<int>, ghost v: int,
               ghost lo: int, ghost i: int, ghost hi: int, ghost rank: seq<int>)
    returns (ghost u: seq<int>)
    requires Room(ptr, s, u0, v, lo, j, i, hi, h, rank) && 1 <= h && lo + h <= j
    requires KeyLe(rank, v, ptr[j - h])
    modifies ptr
    ensures Room(ptr, s, u, v, lo, j - h, i, hi, h, rank)
  {
    u := Exchange(u0, j - h, j, lo, hi + 1);
    ptr[j] := ptr[j - h];
  }

  /** Shift larger entries right until the place of v is found. */
  method MakeRoom(ptr: array<int>, v: int, lo: int, i: int, hi: int, h: int, d: int,
                  block: array<byte>, quadrant: array<int>, n: int, budget0: int,
                  ghost b: seq<byte>, ghost rank: seq<int>)
    returns (j: int, budget: int, ghost u: seq<int>)
    requires Setting(block, quadrant, n, b, rank) && ptr != quadrant && 0 <= d <= 15
    requires 0 <= lo && 1 <= h && lo + h <= i <= hi < ptr.Length && ptr[i] == v
    requires Agree(b, ptr[..], lo, hi, d)
    modifies ptr
    ensures Room(ptr, old(ptr[..]), u, v, lo, j, i, hi, h, rank)
    ensures h == 1 && lo < j ==> KeyLe(rank, ptr[j - 1], v)
  {
    ghost var s := ptr[..];
    assert s[i] == v;
    u := s;
    budget := budget0;
    j := i;
    while lo + h <= j
      invariant Room(ptr, s, u, v, lo, j, i, hi, h, rank)
    {
      var gt;
      assert ptr[j - h] == s[j - h];
      gt, budget := EntryGt(ptr[j - h], v, d, block, quadrant, n, budget, b, rank);
      if !gt { break; }
      u := Shift(ptr, j, h, s, u, v, lo, i, hi, rank);
      j := j - h;
    }
  }

  method Insert(ptr: array<int>, lo: int, i: int, hi: int, h: int, d: int,
                block: array<byte>, quadrant: array<int>, n: int, budget0: int,
                ghost b: seq<byte>, ghost rank: seq<int>)
    returns (budget: int)
    requires Setting(block, quadrant, n, b, rank) && ptr != quadrant && 0 <= d <= 15
    requires 0 <= lo && 1 <= h && lo + h <= i <= hi < ptr.Length
    requires Agree(b, ptr[..], lo, hi, d)
    requires h == 1 ==> KeySorted(ptr[..], rank, lo, i - 1)
    modifies ptr
    ensures PermutesRange(old(ptr[..]), ptr[..], lo, hi + 1)
    ensures h == 1 ==> KeySorted(ptr[..], rank, lo, i)
  {
    var v := ptr[i];
    var j; ghost var u;
    j, budget, u := MakeRoom(ptr, v, lo, i, hi, h, d, block, quadrant, n, budget0, b, rank);
    ptr[j] := v;
    assert ptr[..] == u;
    if h == 1 {
      InsertSorted(old(ptr[..]), u, rank, lo, j, i);
    }
  }

  lemma InsertSorted(s: seq<int>, f: seq<int>, key: seq<int>, lo: int, j: int, i: int)
    requires 0 <= lo <= j <= i < |s| == |f|
    requires KeySorted(s, key, lo, i - 1)
    requires f[j] == s[i]
    requires forall x :: j < x <= i ==> f[x] == s[x - 1]
    requires forall x :: lo <= x < j ==> f[x] == s[x]
    requires forall x :: j <= x < i ==> KeyLe(key, s[i], s[x])
    requires lo < j ==> KeyLe(key, s[j - 1], s[i])
    ensures KeySorted(f, key, lo, i)
  {
    forall x, y | lo <= x < y <= i
      ensures KeyLe(key, f[x], f[y])
    {
      var x' := if x < j then x else if x == j then i else x - 1;
      var y' := if y < j then y else if y == j then i else y - 1;
      assert f[x] == s[x'] && f[y] == s[y'];
      if x' != i && y' != i {
        assert KeyLe(key, s[x'], s[y']);
      } else if y' == i && x < j - 1 {
        assert KeyLe(key, s[x], s[j - 1]);
      }
    }
  }

  const INCS: seq<int> := [1, 4, 13, 40, 121, 364, 1093, 3280, 9841, 29524, 88573, 265720, 797161, 2391484]

  /** One Shell pass with increment h; it may stop early once the budget is gone. */
  method ShellPass(ptr: array<int>, lo: int, hi: int, h: int, d: int,
                   block: array<byte>, quadrant: array<int>, n: int, budget0: int,
                   ghost b: seq<byte>, ghost rank: seq<int>)
    returns (budget: int, stopped: bool)
    requires Setting(block, quadrant, n, b, rank) && ptr != quadrant && 0 <= d <= 15
    requires 0 <= lo <= hi < ptr.Length && 1 <= h
    requires Agree(b, ptr[..], lo, hi, d)
    modifies ptr
    ensures PermutesRange(old(ptr[..]), ptr[..], lo, hi + 1)
    ensures stopped ==> budget < 0
    ensures h == 1 && !stopped ==> KeySorted(ptr[..], rank, lo, hi)
  {
    budget, stopped := budget0, false;
    var i := lo + h;
    var copy := 0;
    while i <= hi
      invariant lo + h <= i && (h == 1 ==> i <= hi + 1)
      invariant PermutesRange(old(ptr[..]), ptr[..], lo, hi + 1)
      invariant h == 1 ==> KeySorted(ptr[..], rank, lo, i - 1)
    {
      AgreePermutes(b, old(ptr[..]), ptr[..], lo, hi, d);
      budget := Insert(ptr, lo, i, hi, h, d, block, quadrant, n, budget, b, rank);
      i := i + 1;
      copy := copy + 1;
      // The budget is looked at after every third insertion.
      if copy % 3 == 0 && budget < 0 { stopped := true; return; }
    }
  }

  method SimpleSort(ptr: array<int>, lo: int, hi: int, d: int,
                    block: array<byte>, quadrant: array<int>, n: int, budget0: int,
                    ghost b: seq<byte>, ghost rank: seq<int>)
    returns (budget: int)
    requires Setting(block, quadrant, n, b, rank) && ptr != quadrant && 0 <= d <= 15
    requires 0 <= lo <= hi + 1 && hi < ptr.Length && hi - lo < MAX_BLOCK
    requires Agree(b, ptr[..], lo, hi, d)
    modifies ptr
    ensures PermutesRange(old(ptr[..]), ptr[..], lo, hi + 1)
    ensures budget >= 0 ==> KeySorted(ptr[..], rank, lo, hi)
  {
    budget := budget0;
    var bigN := hi - lo + 1;
    if bigN < 2 { return; }
    var hp := 0;
    while INCS[hp] < bigN
      invariant 0 <= hp <= 13
      decreases 14 - hp
    {
      hp := hp + 1;
    }
    assert INCS[0] == 1;
    hp := hp - 1;
    while hp >= 0
      invariant -1 <= hp <= 12
      invariant PermutesRange(old(ptr[..]), ptr[..], lo, hi + 1)
      invariant hp < 0 ==> KeySorted(ptr[..], rank, lo, hi)
    {
      var stopped;
      AgreePermutes(b, old(ptr[..]), ptr[..], lo, hi, d);
      budget, stopped := ShellPass(ptr, lo, hi, INCS[hp], d, block, quadrant, n, budget, b, rank);
      if stopped { return; }
      hp := hp - 1;
    }
  }

  // ---- The three-way radix quicksort ----

  function Med3(a: byte, b: byte, c: byte): (m: byte)
    ensures m == a || m == b || m == c
  {
    var lo, hi := if a > b then b else a, if a > b then a else b;
    if hi > c then (if lo > c then lo else c) else hi
  }

  /** A bound on the size of the range in stack slot t: two thirds per slot. */
  ghost function Cap(total: nat, t: nat): nat
    decreases t
  {
    if t == 0 then total else Cap(2 * total / 3, t - 1)
  }

  lemma {:induction false} CapStep(total: nat, t: nat)
    ensures Cap(total, t + 1) == 2 * Cap(total, t) / 3
    decreases t
  {
    if t > 0 {
      CapStep(2 * total / 3, t - 1);
    }
  }

  lemma {:induction false} CapMono(total: nat, s: nat, t: nat)
    requires s <= t
    ensures Cap(total, t) <= Cap(total, s)
    decreases t
  {
    if s < t {
      CapMono(total, s, t - 1);
      CapStep(total, t - 1);
    }
  }

  /** Three pushed parts, largest first, keep every slot within its bound. */
  ghost predicate Shrinking(st: seq<Range>, total: nat) {
    forall t :: 0 <= t < |st| ==> st[t].Size() <= Cap(total, t)
  }

  ghost predicate Shallow(st: seq<Range>, total: nat) {
    Shrinking(st, total) && (|st| <= 3 || Cap(total, |st| - 3) > SMALL_THRESH)
  }

  function Doubled(x: nat, k: nat): nat {
    if k == 0 then x else 2 * Doubled(x, k - 1)
  }

  /** Two slots more than halve the bound. */
  lemma {:induction false} CapLog(total: nat, k: nat)
    requires total <= Doubled(SMALL_THRESH, k)
    ensures Cap(total, 2 * k) <= SMALL_THRESH
    decreases k
  {
    if k > 0 {
      CapLog(2 * (2 * total / 3) / 3, k - 1);
      assert Cap(total, 2 * k) == Cap(2 * total / 3, 2 * k - 1);
    }
  }

  lemma ShallowBound(st: seq<Range>, total: nat)
    requires Shallow(st, total) && total <= MAX_BLOCK
    ensures |st| <= 34
  {
    if |st| > 34 {
      CapMono(total, 32, |st| - 3);
      assert Doubled(20, 4) == 320 && Doubled(20, 8) == 5120 && Doubled(20, 12) == 81920 && Doubled(20, 16) == 1310720;
      CapLog(total, 16);
    }
  }

  /** Ranges ordered as they are pushed. */
  ghost predicate Descending(r: Range, r0: Range, r1: Range, r2: Range) {
    && r0.Size() >= r1.Size() >= r2.Size() >= 0
    && r0.Size() + r1.Size() + r2.Size() == r.Size()
  }

  lemma ShallowPush(st: seq<Range>, r: Range, r0: Range, r1: Range, r2: Range, total: nat)
    requires Shallow(st + [r], total) && Descending(r, r0, r1, r2) && r.Size() > SMALL_THRESH
    ensures Shallow(st + [r0, r1, r2], total)
  {
    assert (st + [r])[|st|] == r;
    CapStep(total, |st|);
    CapStep(total, |st| + 1);
    var news := st + [r0, r1, r2];
    forall t | 0 <= t < |news|
      ensures news[t].Size() <= Cap(total, t)
    {
      if t < |st| { assert (st + [r])[t] == st[t]; }
    }
  }

  lemma ShallowSame(st: seq<Range>, r: Range, r': Range, total: nat)
    requires Shallow(st + [r], total) && r'.Size() <= r.Size()
    ensures Shallow(st + [r'], total)
    ensures Shallow(st, total)
  {
    assert (st + [r])[|st|] == r;
    assert forall t :: 0 <= t < |st| ==> (st + [r])[t] == st[t] && (st + [r'])[t] == st[t];
    if |st| > 3 { CapMono(total, |st| - 3, |st| - 2); }
  }

  /** Work left in a range: deeper ranges have less to go. */
  ghost function Toil(r: Range): int {
    3 * r.Size() * (16 - r.d) + 1
  }

  lemma ToilPositive(r: Range)
    requires r.Size() >= 0 && r.d <= 15
    ensures Toil(r) >= 1
  {
  }

  ghost function Work(st: seq<Range>): int {
    if st == [] then 0 else Work(st[..|st| - 1]) + Toil(st[|st| - 1])
  }

  lemma WorkAppend(st: seq<Range>, r: Range)
    ensures Work(st + [r]) == Work(st) + Toil(r)
  {
    assert (st + [r])[..|st|] == st;
  }

  ghost predicate Depths(st: seq<Range>) {
    forall t :: 0 <= t < |st| ==> st[t].d <= 15
  }

  lemma {:induction false} WorkNonNegative(st: seq<Range>, lo: int, hi: int)
    requires Within(st, lo, hi) && Depths(st)
    ensures Work(st) >= 0
  {
    if st != [] {
      WorkNonNegative(st[..|st| - 1], lo, hi);
      ToilPositive(st[|st| - 1]);
    }
  }

  /** Splitting a range leaves less work, because the middle part is not empty
      and goes one byte deeper. */
  lemma ToilSplit(a: int, e: int, c: int, d: nat)
    requires e >= 1
    ensures 3 * a * (16 - d) + 1 + (3 * c * (16 - d) + 1) + (3 * e * (16 - (d + 1)) + 1) < 3 * (a + e + c) * (16 - d) + 1
  {
    var k := 16 - d;
    assert 3 * (a + e + c) * k == 3 * a * k + 3 * e * k + 3 * c * k;
    assert 3 * e * (k - 1) == 3 * e * k - 3 * e;
  }

  ghost predicate AgreeAll(b: seq<byte>, s: seq<int>, st: seq<Range>) {
    forall t :: 0 <= t < |st| ==> Agree(b, s, st[t].lo, st[t].hi, st[t].d)
  }

  ghost predicate Pending(b: seq<byte>, s: seq<int>, rank: seq<int>, lo: int, hi: int, st: seq<Range>) {
    && Within(st, lo, hi) && Disjoint(st) && Depths(st)
    && SortedExcept(rank, s, lo, hi, st)
    && AgreeAll(b, s, st)
  }

  /** Other pending ranges do not see what happens in r. */
  lemma AgreeRest(b: seq<byte>, s: seq<int>, s': seq<int>, st: seq<Range>, r: Range, lo: int, hi: int)
    requires AgreeAll(b, s, st + [r]) && Disjoint(st + [r]) && Within(st + [r], lo, hi)
    requires PermutesRange(s, s', r.lo, r.hi + 1)
    ensures AgreeAll(b, s', st)
  {
    assert (st + [r])[|st|] == r;
    forall t | 0 <= t < |st|
      ensures Agree(b, s', st[t].lo, st[t].hi, st[t].d)
    {
      assert (st + [r])[t] == st[t];
      forall x | In(st[t], x)
        ensures s'[x] == s[x]
      {
        assert !(In((st + [r])[t], x) && In((st + [r])[|st|], x));
      }
    }
  }

  lemma PendingStep(b: seq<byte>, s: seq<int>, s': seq<int>, rank: seq<int>, lo: int, hi: int,
                    rest: seq<Range>, r: Range, news: seq<Range>)
    requires Pending(b, s, rank, lo, hi, rest + [r])
    requires PermutesRange(s, s', r.lo, r.hi + 1)
    requires Disjoint(news) && Within(news, r.lo, r.hi) && Depths(news) && AgreeAll(b, s', news)
    requires forall x, y :: r.lo <= x < y <= r.hi ==> KeyLe(rank, s'[x], s'[y]) || Share(news, x, y)
    ensures Pending(b, s', rank, lo, hi, rest + news)
  {
    Refine(rank, s, s', lo, hi, rest, r, news);
    Replace(rest, r, news, lo, hi);
    AgreeRest(b, s, s', rest, r, lo, hi);
    forall t | 0 <= t < |rest + news|
      ensures (rest + news)[t].d <= 15
      ensures Agree(b, s', (rest + news)[t].lo, (rest + news)[t].hi, (rest + news)[t].d)
    {
      if t < |rest| { assert (rest + [r])[t] == rest[t]; }
    }
  }

  /** Sort a small or deep range outright. */
  method FinishTop(ptr: array<int>, block: array<byte>, quadrant: array<int>, n: int, loSt: int, hiSt: int,
                   ghost rest: seq<Range>, r: Range, budget0: int, ghost b: seq<byte>, ghost rank: seq<int>)
    returns (budget: int)
    requires Setting(block, quadrant, n, b, rank) && ptr != quadrant && ptr.Length == n
    requires Pending(b, ptr[..], rank, loSt, hiSt, rest + [r])
    modifies ptr
    ensures PermutesRange(old(ptr[..]), ptr[..], loSt, hiSt + 1)
    ensures budget >= 0 ==> Pending(b, ptr[..], rank, loSt, hiSt, rest)
  {
    assert (rest + [r])[|rest|] == r;
    budget := SimpleSort(ptr, r.lo, r.hi, r.d, block, quadrant, n, budget0, b, rank);
    if budget >= 0 {
      PendingStep(b, old(ptr[..]), ptr[..], rank, loSt, hiSt, rest, r, []);
      assert rest + [] == rest;
    }
  }

  /** The keys of the partition are the bytes d places on. */
  lemma ByteKey(block: seq<byte>, b: seq<byte>, d: nat, x: int)
    requires Mirrored(block, b) && 0 <= x < |b| && d <= 15
    ensures KeyOf(block, d, x) == b[Advance(|b|, x, d)]
  {
    AdvanceIs(|b|, x, d);
    if x + d < |b| { assert block[x + d] == block[..|b|][x + d]; }
  }

  /** One byte deeper: equal bytes keep agreeing, different ones decide. */
  lemma Deeper(block: seq<byte>, b: seq<byte>, rank: seq<int>, d: nat, x: int, y: int)
    requires Mirrored(block, b) && Ranked(b, rank) && d <= 15
    requires 0 <= x < |b| && 0 <= y < |b| && Cmp(b, x, y, d) == 0
    ensures KeyOf(block, d, x) == KeyOf(block, d, y) ==> Cmp(b, x, y, d + 1) == 0
    ensures KeyOf(block, d, x) < KeyOf(block, d, y) ==> KeyLe(rank, x, y)
  {
    ByteKey(block, b, d, x);
    ByteKey(block, b, d, y);
    CmpSplit(b, x, y, d, 1);
    var x', y' := Advance(|b|, x, d), Advance(|b|, y, d);
    if b[x'] == b[y'] {
      assert Cmp(b, x', y', 1) == Cmp(b, Next(|b|, x'), Next(|b|, y'), 0);
    } else if b[x'] < b[y'] {
      CmpPrefix(b, x, y, d + 1, |b|);
      assert RotLe(b, x, y);
    }
  }

  /** After the partition, pairs are in order or share one of the three parts. */
  lemma SplitOrdered(block: seq<byte>, b: seq<byte>, s: seq<int>, rank: seq<int>, med: int, r: Range, n: int, m: int)
    requires Mirrored(block, b) && Ranked(b, rank) && r.d <= DEPTH_THRESH
    requires Split(s, block, r.d, med, r.lo, n, m, r.hi) && Agree(b, s, r.lo, r.hi, r.d)
    ensures forall x, y :: r.lo <= x < y <= r.hi ==>
              KeyLe(rank, s[x], s[y]) || y <= n || m <= x || (n < x && y < m)
    ensures Agree(b, s, n + 1, m - 1, r.d + 1)
  {
    forall x, y | r.lo <= x < y <= r.hi
      ensures KeyLe(rank, s[x], s[y]) || y <= n || m <= x || (n < x && y < m)
    {
      Deeper(block, b, rank, r.d, s[x], s[y]);
    }
    forall x, y | n + 1 <= x <= m - 1 && n + 1 <= y <= m - 1
      ensures Cmp(b, s[x], s[y], r.d + 1) == 0
    {
      Deeper(block, b, rank, r.d, s[x], s[y]);
    }
  }

  ghost predicate Arranged(r0: Range, r1: Range, r2: Range, a: Range, c: Range, e: Range) {
    || (r0 == a && ((r1 == c && r2 == e) || (r1 == e && r2 == c)))
    || (r0 == c && ((r1 == a && r2 == e) || (r1 == e && r2 == a)))
    || (r0 == e && ((r1 == a && r2 == c) || (r1 == c && r2 == a)))
  }

  /** The three parts in the order they are pushed, by three exchanges. */
  method Order(a: Range, c: Range, e: Range) returns (r0: Range, r1: Range, r2: Range)
    ensures r0.Size() >= r1.Size() >= r2.Size()
    ensures Arranged(r0, r1, r2, a, c, e)
  {
    r0, r1, r2 := a, c, e;
    if r0.hi - r0.lo < r1.hi - r1.lo { r0, r1 := r1, r0; }
    if r1.hi - r1.lo < r2.hi - r2.lo { r1, r2 := r2, r1; }
    if r0.hi - r0.lo < r1.hi - r1.lo { r0, r1 := r1, r0; }
  }

  lemma PartsShare(r: Range, n: int, m: int, r0: Range, r1: Range, r2: Range, x: int, y: int)
    requires Arranged(r0, r1, r2, Range(r.lo, n, r.d), Range(m, r.hi, r.d), Range(n + 1, m - 1, r.d + 1))
    requires r.lo <= x < y <= r.hi && (y <= n || m <= x || (n < x && y < m))
    ensures Share([r0, r1, r2], x, y)
  {
    var news := [r0, r1, r2];
    assert news[0] == r0 && news[1] == r1 && news[2] == r2;
    assert (In(news[0], x) && In(news[0], y)) || (In(news[1], x) && In(news[1], y)) || (In(news[2], x) && In(news[2], y));
  }

  lemma PartsInside(r: Range, n: int, m: int, r0: Range, r1: Range, r2: Range)
    requires r.lo - 1 <= n && n + 2 <= m <= r.hi + 1 && r.d <= DEPTH_THRESH
    requires Arranged(r0, r1, r2, Range(r.lo, n, r.d), Range(m, r.hi, r.d), Range(n + 1, m - 1, r.d + 1))
    ensures Disjoint([r0, r1, r2]) && Within([r0, r1, r2], r.lo, r.hi) && Depths([r0, r1, r2])
    ensures r0.Size() + r1.Size() + r2.Size() == r.Size()
  {
  }

  lemma PartsFit(r: Range, n: int, m: int, r0: Range, r1: Range, r2: Range)
    requires r.lo - 1 <= n && n + 2 <= m <= r.hi + 1 && r.d <= DEPTH_THRESH
    requires Arranged(r0, r1, r2, Range(r.lo, n, r.d), Range(m, r.hi, r.d), Range(n + 1, m - 1, r.d + 1))
    ensures Disjoint([r0, r1, r2]) && Within([r0, r1, r2], r.lo, r.hi) && Depths([r0, r1, r2])
    ensures r0.Size() + r1.Size() + r2.Size() == r.Size()
    ensures Toil(r0) + Toil(r1) + Toil(r2) < Toil(r)
    ensures forall x, y :: r.lo <= x < y <= r.hi && (y <= n || m <= x || (n < x && y < m)) ==> Share([r0, r1, r2], x, y)
  {
    PartsInside(r, n, m, r0, r1, r2);
    ToilSplit(n - r.lo + 1, m - n - 1, r.hi - m + 1, r.d);
    forall x, y | r.lo <= x < y <= r.hi && (y <= n || m <= x || (n < x && y < m))
      ensures Share([r0, r1, r2], x, y)
    {
      PartsShare(r, n, m, r0, r1, r2, x, y);
    }
  }

  /** Partition one range by its byte at depth d. */
  method PartitionByByte(ptr: array<int>, block: array<byte>, n: int, r: Range, ghost b: seq<byte>, ghost rank: seq<int>)
    returns (lt: int, gt: int, uniform: bool)
    requires n == |b| == ptr.Length && Mirrored(block[..], b) && Ranked(b, rank)
    requires 0 <= r.lo <= r.hi < n && r.d <= DEPTH_THRESH && Agree(b, ptr[..], r.lo, r.hi, r.d)
    modifies ptr
    ensures PermutesRange(old(ptr[..]), ptr[..], r.lo, r.hi + 1)
    ensures r.lo - 1 <= lt && lt + 2 <= gt <= r.hi + 1
    ensures Agree(b, ptr[..], r.lo, r.hi, r.d) && Agree(b, ptr[..], lt + 1, gt - 1, r.d + 1)
    ensures forall x, y :: r.lo <= x < y <= r.hi ==>
              KeyLe(rank, ptr[..][x], ptr[..][y]) || y <= lt || gt <= x || (lt < x && y < gt)
    ensures uniform <==> lt == r.lo - 1 && gt == r.hi + 1
  {
    ghost var s := ptr[..];
    var med := Med3(block[ptr[r.lo] + r.d], block[ptr[r.hi] + r.d], block[ptr[(r.lo + r.hi) / 2] + r.d]);
    lt, gt, uniform := Partition(ptr, block[..], r.d, med, r.lo, r.hi);
    AgreePermutes(b, s, ptr[..], r.lo, r.hi, r.d);
    SplitOrdered(block[..], b, ptr[..], rank, med, r, lt, gt);
  }

  /** Partition the topmost range; its parts take its place. */
  method SplitTop(ptr: array<int>, block: array<byte>, n: int, loSt: int, hiSt: int,
                  ghost rest: seq<Range>, r: Range, ghost b: seq<byte>, ghost rank: seq<int>)
    returns (news: seq<Range>)
    requires n == |b| == ptr.Length && Mirrored(block[..], b) && Ranked(b, rank)
    requires Pending(b, ptr[..], rank, loSt, hiSt, rest + [r])
    requires r.Size() > SMALL_THRESH && r.d <= DEPTH_THRESH
    modifies ptr
    ensures PermutesRange(old(ptr[..]), ptr[..], loSt, hiSt + 1)
    ensures Pending(b, ptr[..], rank, loSt, hiSt, rest + news)
    ensures Lighter(r, news)
  {
    ghost var s := ptr[..];
    assert (rest + [r])[|rest|] == r;
    var lt, gt, uniform := PartitionByByte(ptr, block, n, r, b, rank);
    if uniform {
      news := [Range(r.lo, r.hi, r.d + 1)];
      UniformPending(b, s, ptr[..], rank, loSt, hiSt, rest, r);
      ToilDeeper(r.Size(), r.d);
    } else {
      var r0, r1, r2 := Order(Range(r.lo, lt, r.d), Range(gt, r.hi, r.d), Range(lt + 1, gt - 1, r.d + 1));
      news := [r0, r1, r2];
      PartsPending(b, s, ptr[..], rank, loSt, hiSt, rest, r, lt, gt, r0, r1, r2);
    }
  }

  lemma PartsPending(b: seq<byte>, s: seq<int>, s': seq<int>, rank: seq<int>, lo: int, hi: int, rest: seq<Range>, r: Range,
                     n: int, m: int, r0: Range, r1: Range, r2: Range)
    requires Pending(b, s, rank, lo, hi, rest + [r]) && r.d <= DEPTH_THRESH
    requires PermutesRange(s, s', r.lo, r.hi + 1)
    requires r.lo - 1 <= n && n + 2 <= m <= r.hi + 1
    requires r0.Size() >= r1.Size() >= r2.Size()
    requires Arranged(r0, r1, r2, Range(r.lo, n, r.d), Range(m, r.hi, r.d), Range(n + 1, m - 1, r.d + 1))
    requires Agree(b, s', r.lo, r.hi, r.d) && Agree(b, s', n + 1, m - 1, r.d + 1)
    requires forall x, y :: r.lo <= x < y <= r.hi ==>
               KeyLe(rank, s'[x], s'[y]) || y <= n || m <= x || (n < x && y < m)
    ensures Pending(b, s', rank, lo, hi, rest + [r0, r1, r2])
    ensures Descending(r, r0, r1, r2) && Toil(r0) + Toil(r1) + Toil(r2) < Toil(r)
  {
    PartsFit(r, n, m, r0, r1, r2);
    PartsAgree(b, s', r, n, m, r0, r1, r2);
    PendingStep(b, s, s', rank, lo, hi, rest, r, [r0, r1, r2]);
  }

  lemma UniformPending(b: seq<byte>, s: seq<int>, s': seq<int>, rank: seq<int>, lo: int, hi: int, rest: seq<Range>, r: Range)
    requires Pending(b, s, rank, lo, hi, rest + [r]) && r.d <= DEPTH_THRESH && r.lo <= r.hi
    requires PermutesRange(s, s', r.lo, r.hi + 1) && Agree(b, s', r.lo, r.hi, r.d + 1)
    ensures Pending(b, s', rank, lo, hi, rest + [Range(r.lo, r.hi, r.d + 1)])
  {
    var news := [Range(r.lo, r.hi, r.d + 1)];
    forall x, y | r.lo <= x < y <= r.hi
      ensures Share(news, x, y)
    {
      assert In(news[0], x) && In(news[0], y);
    }
    PendingStep(b, s, s', rank, lo, hi, rest, r, news);
  }

  lemma PartsAgree(b: seq<byte>, s: seq<int>, r: Range, n: int, m: int, r0: Range, r1: Range, r2: Range)
    requires r.lo - 1 <= n && n + 2 <= m <= r.hi + 1
    requires Arranged(r0, r1, r2, Range(r.lo, n, r.d), Range(m, r.hi, r.d), Range(n + 1, m - 1, r.d + 1))
    requires Agree(b, s, r.lo, r.hi, r.d) && Agree(b, s, n + 1, m - 1, r.d + 1)
    ensures AgreeAll(b, s, [r0, r1, r2])
  {
    assert Agree(b, s, r.lo, n, r.d);
    assert Agree(b, s, m, r.hi, r.d);
  }

  /** The topmost range is finished or split into parts. */
  method TopStep(ptr: array<int>, block: array<byte>, quadrant: array<int>, n: int, loSt: int, hiSt: int,
                 rest: seq<Range>, top: Range, budget0: int, ghost b: seq<byte>, ghost rank: seq<int>)
    returns (stop: bool, budget: int, news: seq<Range>)
    requires Setting(block, quadrant, n, b, rank) && ptr != quadrant && ptr.Length == n
    requires Pending(b, ptr[..], rank, loSt, hiSt, rest + [top])
    modifies ptr
    ensures PermutesRange(old(ptr[..]), ptr[..], loSt, hiSt + 1)
    ensures stop ==> budget < 0
    ensures !stop ==> Pending(b, ptr[..], rank, loSt, hiSt, rest + news)
    ensures !stop ==> news == [] || (top.Size() > SMALL_THRESH && Lighter(top, news))
  {
    stop, budget, news := false, budget0, [];
    if top.hi - top.lo < SMALL_THRESH || top.d > DEPTH_THRESH {
      budget := FinishTop(ptr, block, quadrant, n, loSt, hiSt, rest, top, budget, b, rank);
      stop := budget < 0;
      assert rest + [] == rest;
    } else {
      news := SplitTop(ptr, block, n, loSt, hiSt, rest, top, b, rank);
    }
  }

  /** One round of the stack loop. */
  method StackStep(ptr: array<int>, block: array<byte>, quadrant: array<int>, n: int, loSt: int, hiSt: int,
                   stack: seq<Range>, budget0: int, ghost b: seq<byte>, ghost rank: seq<int>, ghost total: nat)
    returns (stop: bool, budget: int, stack': seq<Range>)
    requires Setting(block, quadrant, n, b, rank) && ptr != quadrant && ptr.Length == n && stack != []
    requires Pending(b, ptr[..], rank, loSt, hiSt, stack) && Shallow(stack, total)
    modifies ptr
    ensures PermutesRange(old(ptr[..]), ptr[..], loSt, hiSt + 1)
    ensures stop ==> budget < 0
    ensures !stop ==> Pending(b, ptr[..], rank, loSt, hiSt, stack') && Shallow(stack', total) && Work(stack') < Work(stack)
  {
    var top, rest := stack[|stack| - 1], stack[..|stack| - 1];
    assert stack == rest + [top];
    var news;
    stop, budget, news := TopStep(ptr, block, quadrant, n, loSt, hiSt, rest, top, budget0, b, rank);
    if !stop {
      StackLighter(rest, top, news, total, loSt, hiSt);
    }
    stack' := rest + news;
  }

  /** The stack stays shallow and its work grows less. */
  lemma StackLighter(rest: seq<Range>, top: Range, news: seq<Range>, total: nat, lo: int, hi: int)
    requires Shallow(rest + [top], total) && Within(rest + [top], lo, hi) && Depths(rest + [top])
    requires news == [] || (top.Size() > SMALL_THRESH && Lighter(top, news))
    ensures Shallow(rest + news, total) && Work(rest + news) < Work(rest + [top])
  {
    if news == [] {
      assert rest + news == rest;
      ShallowSame(rest, top, top, total);
      WorkPop(rest, top, lo, hi);
    } else {
      PushShallow(rest, top, news, total);
      PushWork(rest, top, news);
    }
  }

  /** Sort ptr[loSt..hiSt], whose entries agree on dSt bytes. */
  method QSort3(ptr: array<int>, block: array<byte>, quadrant: array<int>, n: int, loSt: int, hiSt: int, dSt: int,
                budget0: int, ghost b: seq<byte>, ghost rank: seq<int>)
    returns (budget: int)
    requires Setting(block, quadrant, n, b, rank) && ptr != quadrant && ptr.Length == n
    requires 0 <= loSt <= hiSt < n && 0 <= dSt <= DEPTH_THRESH
    requires Agree(b, ptr[..], loSt, hiSt, dSt)
    modifies ptr
    ensures PermutesRange(old(ptr[..]), ptr[..], loSt, hiSt + 1)
    ensures budget >= 0 ==> KeySorted(ptr[..], rank, loSt, hiSt)
  {
    budget := budget0;
    ghost var total := hiSt - loSt + 1;
    var stack := [Range(loSt, hiSt, dSt)];
    FirstPending(b, ptr[..], rank, loSt, hiSt, dSt);
    while |stack| > 0
      invariant Pending(b, ptr[..], rank, loSt, hiSt, stack)
      invariant Shallow(stack, total)
      invariant PermutesRange(old(ptr[..]), ptr[..], loSt, hiSt + 1)
      decreases Work(stack)
    {
      ShallowBound(stack, total);
      assert |stack| < STACK_SIZE - 2;  // internal error 1001
      WorkNonNegative(stack, loSt, hiSt);
      var stop;
      stop, budget, stack := StackStep(ptr, block, quadrant, n, loSt, hiSt, stack, budget, b, rank, total);
      if stop { return; }
    }
  }

  lemma FirstPending(b: seq<byte>, s: seq<int>, rank: seq<int>, lo: int, hi: int, d: nat)
    requires 0 <= lo <= hi < |s| && d <= DEPTH_THRESH && Agree(b, s, lo, hi, d)
    ensures Pending(b, s, rank, lo, hi, [Range(lo, hi, d)])
    ensures Shallow([Range(lo, hi, d)], hi - lo + 1)
  {
    var st := [Range(lo, hi, d)];
    forall x, y | lo <= x < y <= hi
      ensures Share(st, x, y)
    {
      assert In(st[0], x) && In(st[0], y);
    }
  }

  lemma WorkPop(rest: seq<Range>, top: Range, lo: int, hi: int)
    requires Within(rest + [top], lo, hi) && Depths(rest + [top])
    ensures 0 <= Work(rest) < Work(rest + [top])
  {
    assert (rest + [top])[|rest|] == top;
    assert forall t :: 0 <= t < |rest| ==> (rest + [top])[t] == rest[t];
    WorkNonNegative(rest, lo, hi);
    WorkAppend(rest, top);
    ToilPositive(top);
  }

  /** What the pushed ranges look like, compared with the range they replace. */
  ghost predicate Lighter(top: Range, news: seq<Range>) {
    || (|news| == 1 && news[0].Size() == top.Size() && Toil(news[0]) < Toil(top))
    || (|news| == 3 && Descending(top, news[0], news[1], news[2]) &&
        Toil(news[0]) + Toil(news[1]) + Toil(news[2]) < Toil(top))
  }

  lemma PushShallow(rest: seq<Range>, top: Range, news: seq<Range>, total: nat)
    requires Shallow(rest + [top], total) && top.Size() > SMALL_THRESH && Lighter(top, news)
    ensures Shallow(rest + news, total)
  {
    if |news| == 1 {
      ShallowSame(rest, top, news[0], total);
      assert news == [news[0]];
    } else {
      ShallowPush(rest, top, news[0], news[1], news[2], total);
      assert news == [news[0], news[1], news[2]];
    }
  }

  lemma PushWork(rest: seq<Range>, top: Range, news: seq<Range>)
    requires Lighter(top, news)
    ensures Work(rest + news) < Work(rest + [top])
  {
    WorkAppend(rest, top);
    WorkAppend(rest, news[0]);
    if |news| == 1 {
      assert news == [news[0]];
    } else {
      WorkAppend(rest + [news[0]], news[1]);
      WorkAppend(rest + [news[0]] + [news[1]], news[2]);
      assert rest + news == rest + [news[0]] + [news[1]] + [news[2]];
    }
  }

  lemma ToilDeeper(size: int, d: nat)
    requires size > 0
    ensures 3 * size * (16 - (d + 1)) < 3 * size * (16 - d)
  {
  }
}
