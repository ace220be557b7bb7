/** fallbackSimpleSort and fallbackQSort3: sorting a bucket of block positions
    by the class number of the rotation H places on. */
module FallbackQSort {
  import opened Permutations
  import opened QuickSort

  const SMALL_THRESH := 10
  const STACK_SIZE := 100

  /** Entries s with `tmp`, taken from place i, moved up to the gap before j;
      `v` is the contents with `tmp` put into the gap. */
  ghost predicate Room(fmap: array<int>, s: seq<int>, v: seq<int>, tmp: int, eclass: seq<int>,
                       lo: int, i: int, j: int, hi: int, gap: int)
    reads fmap
  {
    && 0 <= lo <= i < i + gap <= j <= hi + gap && hi < fmap.Length == |s|
    && PermutesRange(s, v, lo, hi + 1) && v[j - gap] == tmp
    && (forall x {:trigger fmap[x]} {:trigger v[x]} :: 0 <= x < fmap.Length && x != j - gap ==> fmap[x] == v[x])
    && (forall x {:trigger fmap[x]} :: j - gap < x < fmap.Length ==> fmap[x] == s[x])
    && (gap == 1 ==> forall x {:trigger fmap[x]} :: i <= x < j - 1 ==> fmap[x] == s[x + 1])
    && (gap == 1 ==> forall x :: i < x < j ==> KeyOf(eclass, 0, s[x]) < KeyOf(eclass, 0, tmp))
  }

  method Shift(fmap: array<int>, j: int, gap: int, ghost s: seq<int>, ghost v0: seq<int>, ghost tmp: int,
               ghost eclass: seq<int>, ghost lo: int, ghost i: int, ghost hi: int)
    returns (ghost v: seq<int>)
    requires Room(fmap, s, v0, tmp, eclass, lo, i, j, hi, gap) && j <= hi
    requires KeyOf(eclass, 0, fmap[j]) < KeyOf(eclass, 0, tmp)
    modifies fmap
    ensures Room(fmap, s, v, tmp, eclass, lo, i, j + gap, hi, gap)
  {
    v := Exchange(v0, j - gap, j, lo, hi + 1);
    fmap[j - gap] := fmap[j];
  }

  /** Shift smaller entries left until the place of `tmp` is found. */
  method MakeRoom(fmap: array<int>, eclass: seq<int>, lo: int, i: int, hi: int, gap: int, tmp: int)
    returns (j: int, ghost v: seq<int>)
    requires 0 <= lo <= i < i + gap <= hi < fmap.Length && fmap[i] == tmp
    requires Keyed(fmap[..], eclass, 0, lo, hi)
    modifies fmap
    ensures Room(fmap, old(fmap[..]), v, tmp, eclass, lo, i, j, hi, gap)
    ensures j <= hi ==> KeyOf(eclass, 0, tmp) <= KeyOf(eclass, 0, fmap[j])
  {
    ghost var s := fmap[..];
    v := s;
    assert s[i] == tmp;
    var ec := eclass[tmp];
    j := i + gap;
    while j <= hi && ec > eclass[fmap[j]]
      invariant Room(fmap, s, v, tmp, eclass, lo, i, j, hi, gap)
      decreases hi - j
    {
      v := Shift(fmap, j, gap, s, v, tmp, eclass, lo, i, hi);
      j := j + gap;
    }
  }

  /** Insert the entry at i among those a multiple of `gap` to its right. */
  method Insert(fmap: array<int>, eclass: seq<int>, lo: int, i: int, hi: int, gap: int)
    requires 0 <= lo <= i < i + gap <= hi < fmap.Length
    requires Keyed(fmap[..], eclass, 0, lo, hi)
    requires gap == 1 ==> KeySorted(fmap[..], eclass, i + 1, hi)
    modifies fmap
    ensures PermutesRange(old(fmap[..]), fmap[..], lo, hi + 1)
    ensures gap == 1 ==> KeySorted(fmap[..], eclass, i, hi)
  {
    var tmp := fmap[i];
    ghost var v;
    var j;
    j, v := MakeRoom(fmap, eclass, lo, i, hi, gap, tmp);
    fmap[j - gap] := tmp;
    assert fmap[..] == v;
    if gap == 1 {
      InsertSorted(old(fmap[..]), v, eclass, i, j, hi);
    }
  }

  lemma InsertSorted(s: seq<int>, f: seq<int>, key: seq<int>, i: int, j: int, hi: int)
    requires 0 <= i < j <= hi + 1 <= |s| == |f|
    requires KeySorted(s, key, i + 1, hi)
    requires f[j - 1] == s[i]
    requires forall x :: i <= x < j - 1 ==> f[x] == s[x + 1]
    requires forall x :: j <= x <= hi ==> f[x] == s[x]
    requires forall x :: i < x < j ==> KeyOf(key, 0, s[x]) <= KeyOf(key, 0, s[i])
    requires j <= hi ==> KeyOf(key, 0, s[i]) <= KeyOf(key, 0, s[j])
    ensures KeySorted(f, key, i, hi)
  {
    forall x, y | i <= x < y <= hi
      ensures KeyLe(key, f[x], f[y])
    {
      var x' := if x < j - 1 then x + 1 else if x == j - 1 then i else x;
      var y' := if y < j - 1 then y + 1 else if y == j - 1 then i else y;
      assert f[x] == s[x'] && f[y] == s[y'];
      if x' != i && y' != i {
        assert KeyLe(key, s[x'], s[y']);
      } else if x' == i && j < y {
        assert KeyLe(key, s[j], s[y]);
      }
    }
  }

  method InsertAll(fmap: array<int>, eclass: seq<int>, lo: int, hi: int, gap: int)
    requires 0 <= lo <= hi < fmap.Length && gap >= 1
    requires Keyed(fmap[..], eclass, 0, lo, hi)
    modifies fmap
    ensures PermutesRange(old(fmap[..]), fmap[..], lo, hi + 1)
    ensures gap == 1 ==> KeySorted(fmap[..], eclass, lo, hi)
  {
    var i := hi - gap;
    while i >= lo
      invariant i <= hi - gap
      invariant gap == 1 ==> lo - 1 <= i && KeySorted(fmap[..], eclass, i + 1, hi)
      invariant PermutesRange(old(fmap[..]), fmap[..], lo, hi + 1)
    {
      KeyedPermutes(old(fmap[..]), fmap[..], eclass, 0, lo, hi);
      Insert(fmap, eclass, lo, i, hi, gap);
      i := i - 1;
    }
  }

  method SimpleSort(fmap: array<int>, eclass: seq<int>, lo: int, hi: int)
    requires 0 <= lo <= hi + 1 && hi < fmap.Length
    requires Keyed(fmap[..], eclass, 0, lo, hi)
    modifies fmap
    ensures PermutesRange(old(fmap[..]), fmap[..], lo, hi + 1)
    ensures KeySorted(fmap[..], eclass, lo, hi)
  {
    if lo >= hi { return; }
    if hi - lo > 3 {
      InsertAll(fmap, eclass, lo, hi, 4);
      KeyedPermutes(old(fmap[..]), fmap[..], eclass, 0, lo, hi);
    }
    InsertAll(fmap, eclass, lo, hi, 1);
  }

  /** size doubled t times */
  ghost function Load(size: int, t: nat): int
    decreases t
  {
    if t == 0 then size else Load(2 * size, t - 1)
  }

  lemma {:induction false} LoadMono(a: int, b: int, s: nat, t: nat)
    requires 0 <= a <= b && s <= t
    ensures 0 <= Load(a, s) <= Load(b, t)
    decreases t
  {
    if s > 0 {
      LoadMono(2 * a, 2 * b, s - 1, t - 1);
    } else if t > 0 {
      LoadMono(a, 2 * b, 0, t - 1);
    }
  }

  /** Pushing the larger part first halves the size from one stack slot to the next. */
  ghost predicate Halving(st: seq<Range>, total: nat) {
    forall t :: 0 <= t < |st| ==> Load(st[t].Size(), t) <= total
  }

  /** The stack is at most logarithmic in the size of the range being sorted. */
  ghost predicate Shallow(st: seq<Range>, total: nat) {
    Halving(st, total) && (|st| <= 1 || Load(SMALL_THRESH + 1, |st| - 2) <= total)
  }

  lemma HalvingPush(st: seq<Range>, r: Range, big: Range, small: Range, total: nat)
    requires Halving(st + [r], total)
    requires 0 <= small.Size() <= big.Size() && big.Size() + small.Size() <= r.Size()
    ensures Halving(st + [big, small], total)
  {
    assert (st + [r])[|st|] == r;
    LoadMono(big.Size(), r.Size(), |st|, |st|);
    LoadMono(2 * small.Size(), r.Size(), |st|, |st|);
    forall t | 0 <= t < |st + [big, small]|
      ensures Load((st + [big, small])[t].Size(), t) <= total
    {
      if t < |st| {
        assert (st + [r])[t] == st[t];
      }
    }
  }

  lemma ShallowBound(st: seq<Range>, total: nat)
    requires Shallow(st, total) && total <= MAX_BLOCK
    ensures |st| <= 18
  {
    if |st| > 18 {
      LoadMono(SMALL_THRESH + 1, SMALL_THRESH + 1, 17, |st| - 2);
      LoadLimit();
    }
  }

  lemma LoadLimit()
    ensures Load(SMALL_THRESH + 1, 17) > MAX_BLOCK
  {
    assert Load(11, 17) == Load(44, 15) == Load(176, 13) == Load(704, 11) == Load(2816, 9);
    assert Load(2816, 9) == Load(11264, 7) == Load(45056, 5) == Load(180224, 3) == Load(720896, 1);
  }

  ghost predicate Pending(s: seq<int>, key: seq<int>, lo: int, hi: int, st: seq<Range>) {
    && Within(st, lo, hi) && Disjoint(st)
    && SortedExcept(key, s, lo, hi, st)
  }

  /** Work left: twice the entries plus one per pending range. */
  ghost function Work(st: seq<Range>): int {
    if st == [] then 0 else Work(st[..|st| - 1]) + 2 * st[|st| - 1].Size() + 1
  }

  lemma WorkAppend(st: seq<Range>, r: Range)
    ensures Work(st + [r]) == Work(st) + 2 * r.Size() + 1
  {
    assert (st + [r])[..|st|] == st;
  }

  lemma {:induction false} WorkNonNegative(st: seq<Range>, lo: int, hi: int)
    requires Within(st, lo, hi)
    ensures Work(st) >= 0
  {
    if st != [] {
      WorkNonNegative(st[..|st| - 1], lo, hi);
    }
  }

  /** Sort a small range outright. */
  method FinishTop(fmap: array<int>, eclass: seq<int>, loSt: int, hiSt: int, ghost rest: seq<Range>, r: Range)
    requires 0 <= loSt && hiSt < fmap.Length && Keyed(fmap[..], eclass, 0, loSt, hiSt)
    requires Pending(fmap[..], eclass, loSt, hiSt, rest + [r])
    modifies fmap
    ensures Pending(fmap[..], eclass, loSt, hiSt, rest)
    ensures PermutesRange(old(fmap[..]), fmap[..], loSt, hiSt + 1)
  {
    assert (rest + [r])[|rest|] == r;
    SimpleSort(fmap, eclass, r.lo, r.hi);
    SplitPending(old(fmap[..]), fmap[..], eclass, loSt, hiSt, rest, r, []);
    assert rest + [] == rest;
  }

  /** Partition the topmost range; the larger part is to go underneath. */
  method SplitTop(fmap: array<int>, eclass: seq<int>, loSt: int, hiSt: int, ghost rest: seq<Range>, r: Range, med: int)
    returns (uniform: bool, big: Range, small: Range)
    requires 0 <= loSt && hiSt < fmap.Length && Keyed(fmap[..], eclass, 0, loSt, hiSt)
    requires Pending(fmap[..], eclass, loSt, hiSt, rest + [r])
    requires 0 <= r.lo <= r.hi < fmap.Length
    requires exists x :: r.lo <= x <= r.hi && KeyOf(eclass, 0, fmap[x]) == med
    modifies fmap
    ensures Pending(fmap[..], eclass, loSt, hiSt, if uniform then rest else rest + [big, small])
    ensures PermutesRange(old(fmap[..]), fmap[..], loSt, hiSt + 1)
    ensures 0 <= small.Size() <= big.Size() && big.Size() + small.Size() < r.Size()
  {
    assert (rest + [r])[|rest|] == r;
    var n, m;
    n, m, uniform := Partition(fmap, eclass, 0, med, r.lo, r.hi);
    var left, right := Range(r.lo, n, 0), Range(m, r.hi, 0);
    big, small := if left.Size() > right.Size() then left else right, if left.Size() > right.Size() then right else left;
    SplitOrdered(fmap[..], eclass, med, r, n, m, big, small);
    SplitPending(old(fmap[..]), fmap[..], eclass, loSt, hiSt, rest, r, if uniform then [] else [big, small]);
    assert rest + [] == rest;
  }

  lemma SplitPending(s: seq<int>, s': seq<int>, key: seq<int>, lo: int, hi: int, rest: seq<Range>, r: Range, news: seq<Range>)
    requires Pending(s, key, lo, hi, rest + [r])
    requires PermutesRange(s, s', r.lo, r.hi + 1)
    requires Disjoint(news) && Within(news, r.lo, r.hi)
    requires forall x, y :: r.lo <= x < y <= r.hi ==> KeyLe(key, s'[x], s'[y]) || Share(news, x, y)
    ensures Pending(s', key, lo, hi, rest + news)
  {
    Refine(key, s, s', lo, hi, rest, r, news);
    Replace(rest, r, news, lo, hi);
  }

  lemma SplitOrdered(s: seq<int>, key: seq<int>, med: int, r: Range, n: int, m: int, big: Range, small: Range)
    requires Split(s, key, 0, med, r.lo, n, m, r.hi)
    requires {big, small} == {Range(r.lo, n, 0), Range(m, r.hi, 0)}
    ensures Disjoint([big, small]) && Within([big, small], r.lo, r.hi)
    ensures forall x, y :: r.lo <= x < y <= r.hi ==> KeyLe(key, s[x], s[y]) || Share([big, small], x, y)
    ensures n == r.lo - 1 && m == r.hi + 1 ==> forall x, y :: r.lo <= x < y <= r.hi ==> KeyLe(key, s[x], s[y])
  {
    forall x, y | r.lo <= x < y <= r.hi
      ensures KeyLe(key, s[x], s[y]) || Share([big, small], x, y)
    {
      if y <= n || m <= x {
        assert (In(big, x) && In(big, y)) || (In(small, x) && In(small, y));
        assert [big, small][0] == big && [big, small][1] == small;
      }
    }
  }

  method QSort3(fmap: array<int>, eclass: seq<int>, loSt: int, hiSt: int)
    requires 0 <= loSt <= hiSt < fmap.Length && hiSt - loSt < MAX_BLOCK
    requires Keyed(fmap[..], eclass, 0, loSt, hiSt)
    modifies fmap
    ensures PermutesRange(old(fmap[..]), fmap[..], loSt, hiSt + 1)
    ensures KeySorted(fmap[..], eclass, loSt, hiSt)
  {
    ghost var total := hiSt - loSt + 1;
    var r := 0;
    var stack := [Range(loSt, hiSt, 0)];
    assert stack[0] == Range(loSt, hiSt, 0);
    while |stack| > 0
      invariant Pending(fmap[..], eclass, loSt, hiSt, stack)
      invariant Shallow(stack, total)
      invariant PermutesRange(old(fmap[..]), fmap[..], loSt, hiSt + 1)
      invariant 0 <= r
      decreases Work(stack)
    {
      ShallowBound(stack, total);
      assert |stack| < STACK_SIZE - 1;  // internal error 1004
      var top, rest := stack[|stack| - 1], stack[..|stack| - 1];
      assert stack == rest + [top];
      WorkAppend(rest, top);
      WorkNonNegative(rest, loSt, hiSt);
      KeyedPermutes(old(fmap[..]), fmap[..], eclass, 0, loSt, hiSt);
      if top.hi - top.lo < SMALL_THRESH {
        FinishTop(fmap, eclass, loSt, hiSt, rest, top);
        ShallowPop(rest, top, total);
        stack := rest;
      } else {
        r := (r * 7621 + 1) % 32768;
        var probe := if r % 3 == 0 then top.lo else if r % 3 == 1 then (top.lo + top.hi) / 2 else top.hi;
        var med := eclass[fmap[probe]];
        var uniform, big, small := SplitTop(fmap, eclass, loSt, hiSt, rest, top, med);
        ShallowPop(rest, top, total);
        ShallowPush(rest, top, big, small, total);
        WorkPush(rest, top, big, small);
        stack := if uniform then rest else rest + [big, small];
      }
    }
  }

  lemma ShallowPop(rest: seq<Range>, top: Range, total: nat)
    requires Shallow(rest + [top], total)
    ensures Shallow(rest, total)
  {
    assert forall t :: 0 <= t < |rest| ==> (rest + [top])[t] == rest[t];
    if |rest| > 1 { LoadMono(SMALL_THRESH + 1, SMALL_THRESH + 1, |rest| - 2, |rest| - 1); }
  }

  /** Stack depth after the topmost range was split. */
  lemma ShallowPush(rest: seq<Range>, top: Range, big: Range, small: Range, total: nat)
    requires Shallow(rest + [top], total) && top.Size() > SMALL_THRESH
    requires 0 <= small.Size() <= big.Size() && big.Size() + small.Size() < top.Size()
    ensures Shallow(rest + [big, small], total)
  {
    HalvingPush(rest, top, big, small, total);
    assert (rest + [top])[|rest|] == top;
    LoadMono(SMALL_THRESH + 1, top.Size(), |rest|, |rest|);
  }

  lemma WorkPush(rest: seq<Range>, top: Range, big: Range, small: Range)
    requires big.Size() + small.Size() < top.Size()
    ensures Work(rest + [big, small]) < Work(rest + [top])
  {
    WorkAppend(rest, top);
    WorkAppend(rest, big);
    WorkAppend(rest + [big], small);
    assert rest + [big, small] == rest + [big] + [small];
  }
}
